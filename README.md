# featherpd: error codec and timestamp oracle

A Dafny model of the two pieces of the featherPD placement driver that carry
logic:

- **The error codec** (`src/error.rs`). It defines a closed error taxonomy of eight
  kinds. Four of them (`Config`, `Internal`, `Parse`, `Value`) carry a string. It
  also defines their `Display` text and the conversion to and from the gRPC
  transport status. Encoding writes `"[Kind] " + Display text` under the fixed
  status code INTERNAL. Decoding splits the message on the single space
  character. It matches the first chunk against the eight tags and rebuilds a
  payload by joining the remaining chunks with single spaces. Any other first
  chunk falls back to `Internal("Unknown error type: " + {:?} of the message)`.
- **The timestamp oracle** (`src/server.rs`). `FeatherPD` holds one `u64`
  counter. `new` starts it at 0. `get_next_ts` increments it under a mutex and
  returns the new value.

Files:

- `text.dfy` (module `Text`) models Rust's `str::split(" ")` and
  `[&str]::join(" ")` and proves they invert each other.
- `debug_format.dfy` (modules `Wrappers`, `DebugFormat`) models the `{:?}`
  quoting of a string and proves the quoted text can be read back.
- `error.dfy` (module `Errors`) holds the taxonomy, `Display`, `Encode`,
  `Decode` and the codec's properties.
- `server.dfy` (module `Server`) holds the `FeatherPD` class, with the counter as
  a mutable `u64` field. A ghost field records the issued timestamps.

Three behaviours of the code worth noting:

- Decoding splits on the single space character `' '` (src/error.rs:139) only.
  Tabs and newlines stay inside chunks. For this reason the round trip is exact
  even for payloads with runs of spaces.
- A poisoned mutex makes `get_next_ts` panic through `unwrap()`
  (src/server.rs:23); no error value is returned.
- The field comment at src/server.rs:9 says the counter is "the next timestamp to
  be assigned". In fact it holds the last timestamp issued, because the
  increment comes before the read (src/server.rs:24-25).

The messages for the string-less kinds are literal strings in the source, both
in `Display` (src/error.rs:31-34) and in the encoder (src/error.rs:161-164). The
two sets of phrases are character-for-character identical. The model names each
phrase once, as a constant (`ABORT_TEXT`, …), and uses that constant in both
places.

## Model

| member | source | states |
|---|---|---|
| Text.FirstWord | src/error.rs:139-140 | the first chunk is space-free, is a prefix of the message, and ends at the message's first space or at its end |
| Text.Split | src/error.rs:139 | `split(" ")` always yields at least one chunk, so `chunks[0]` exists and decoding is total. The first chunk is the text before the first space, and no chunk contains a space |
| Text.Join | src/error.rs:141-144 | `chunks[1..].join(" ")`: the chunks with one space between neighbours; the empty slice gives `""`. It has no contract of its own; JoinSplit and SplitJoin are its partners |
| Text.JoinSplit | src/error.rs:139-144 | joining the chunks of any string with `" "` gives back exactly that string, including empty strings and strings with leading, trailing or repeated spaces |
| Text.SplitJoin | src/error.rs:139-144 | a non-empty list of space-free chunks is what its join splits into (the converse of JoinSplit) |
| Text.SplitAfterWord | src/error.rs:139-141 | a space-free word, a space, then `u` splits into that word followed by the chunks of `u` |
| Text.SplitNoSpace | src/error.rs:139-144 | a space-free message is a single chunk, so a bare tag leaves no remainder |
| DebugFormat.DebugQuote | src/error.rs:149 | the `{:?}` rendering starts and ends with a double quote; between the quotes is `Escape` of the message, which applies `EscapeChar` (the escapes of `char::escape_debug` for `"`, `\`, NUL, tab, CR and LF) to each character |
| DebugFormat.UnquoteDebugQuote | src/error.rs:149 | the original string can be read back from its `{:?}` rendering |
| DebugFormat.DebugQuoteInjective | src/error.rs:149 | distinct messages get distinct fallback details |
| Errors.Display | src/error.rs:25-37 | the `Display` text: the payload verbatim for the four string kinds, and for the others the fixed phrases of src/error.rs:31-34, character for character. It has no contract of its own; Encode's ensures and RoundTrip tie it to the encoder |
| Errors.Tag | src/error.rs:157-164 | the bracketed tag of each kind contains no space, so it is a whole first chunk |
| Errors.TagShape | src/error.rs:140-148 | every kind's tag is one of the eight tags decoding recognises |
| Errors.Encode | src/error.rs:154-168 | the status code is always INTERNAL (13), and the message is the kind's tag, one space, then exactly the `Display` text of the same error (src/error.rs:25-37) |
| Errors.Decode | src/error.rs:137-152 | `From<tonic::Status> for Error`. It has no contract of its own: DecodeTagged, DecodeFallback and LeadingTagIffFirstWord together describe it on every message, and RoundTrip shows it inverts Encode |
| Errors.TaggedChunks | src/error.rs:139-144 | a message made of a tag, then a space and `rest` (or the bare tag, with `rest` empty), splits into that tag followed by chunks that join back to `rest` |
| Errors.DecodeTagged | src/error.rs:137-148 | a message that is a kind's tag alone, or the tag, a space and `rest`, decodes to that kind. A string-carrying kind gets `rest` as its payload, and gets `""` for a bare tag. A string-less kind discards `rest` |
| Errors.DecodeFallback | src/error.rs:140-149 | a message whose first space-delimited word is not one of the eight tags decodes to `Internal("Unknown error type: " + DebugQuote(message))`, and the message can be recovered from that detail |
| Errors.LeadingTagIffFirstWord | src/error.rs:139-149 | the first word is a tag if and only if the message is some kind's tag alone or that tag followed by a space. So DecodeTagged and DecodeFallback together cover every message |
| Errors.TagOwner | src/error.rs:140-148 | every recognised tag is the tag of some error kind |
| Errors.FirstWordOfTagged | src/error.rs:139-140 | a message that starts with a space-free tag and then a space or the end has that tag as its first word |
| Errors.RoundTrip | src/error.rs:137-168 | decoding the encoding of any error gives that error back, for every payload |
| Errors.DecodeIdempotent | src/error.rs:137-168 | re-encoding a decoded status and decoding it again gives the same error |
| Errors.EncodeInjective | src/error.rs:154-168 | distinct errors are encoded as distinct messages |
| Errors.FromLibrary | src/error.rs:39-135 | each library-error conversion keeps the library's text as the payload. Configuration and logger errors become `Config`, number-parsing errors become `Parse`, and every other library error becomes `Internal` |
| Server.FeatherPD.constructor | src/server.rs:15-19 | a new server cannot fail, starts with counter 0 and has issued nothing |
| Server.FeatherPD.GetNextTs | src/server.rs:22-26 | given a counter below 2^64−1, the method adds exactly 1 to the counter and returns the new value. That value is at least 1 and greater than every value issued before. The issued list grows by that one value, no other field changes, and the invariant "issued = 1..counter" is kept |
| Server.IssueFromFresh | src/server.rs:15-26 | a fresh server asked n times returns exactly 1, 2, …, n in order, strictly increasing, so no value is issued twice |

## Left out

- The mutex (`Arc<Mutex<u64>>`, `lock().unwrap()`, src/server.rs:10 and 23) is left out. Each `GetNextTs` call is one atomic step, and concurrent interleavings are not modelled. The panic on a poisoned lock is not modelled either.
- The `PlacementDriver` RPC implementation (src/server.rs:29-38) is left out: both of its methods are `todo!()`, and it depends on generated protobuf types and async.
- Server.FeatherPD.GetNextTs: the source's `u64` overflow at the maximum (a debug-build panic, a wrap to 0 in release builds) is not modelled. The method instead requires the counter to be below 2^64−1.
- Server.FeatherPD.constructor: `new` returns `Result<Self>` but always returns `Ok`. The model uses a constructor, which cannot fail.
- DebugFormat.DebugQuote: this models Rust's `{:?}` for `str` only for the escapes `\"`, `\\`, `\0`, `\t`, `\r` and `\n`. It leaves out the `\u{…}` escapes for non-printable and grapheme-extending characters; the model treats every other character as printable and copies it unchanged.
- Errors.FromLibrary: the text of each library error (`to_string()` of bincode, config, log, std and tokio errors) belongs to those libraries and is not part of this model. It is a parameter.
- The serde derives, the `std::error::Error` impl, the `Result`/`RpcResult` aliases and every field of `tonic::Status` except its code and message are left out.
- Decoding ignores the status code, as the source does. The model does not interpret the other gRPC codes.
