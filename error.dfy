/**
 The error taxonomy of the placement driver (src/error.rs) and its codec to and
 from the RPC transport status. The status carries a fixed code and a message
 `"[Kind] text"`; decoding splits the message on single spaces, matches the first
 chunk against the eight tags and falls back to `Internal` for anything else.
 */
module Errors {
  import opened Text
  import opened Wrappers
  import opened DebugFormat

  /** The closed error taxonomy; four kinds carry a descriptive string. */
  datatype Error =
    | Abort
    | Config(detail: string)
    | Internal(detail: string)
    | Parse(detail: string)
    | ReadOnly
    | Serialization
    | Value(detail: string)
    | NotLeader

  /** The transport status: a numeric code and an opaque message. */
  datatype Status = Status(code: nat, message: string)

  /** The status code of `tonic::Status::internal` (gRPC INTERNAL). */
  const INTERNAL_CODE: nat := 13

  /** The prefix of the fallback detail written for an unrecognised message. */
  const UNKNOWN_PREFIX: string := "Unknown error type: "

  /** The fixed `Display` phrases of the string-less kinds; the encoder writes
      the same phrases after their tags. */
  const ABORT_TEXT: string := "Operation aborted"
  const SERIALIZATION_TEXT: string := "Serialization failure, retry transaction"
  const READ_ONLY_TEXT: string := "Read-only transaction"
  const NOT_LEADER_TEXT: string := "Not leader"

  /** The text of the `Display` implementation. */
  function Display(e: Error): string
  {
    match e
    case Config(s) => s
    case Internal(s) => s
    case Parse(s) => s
    case Value(s) => s
    case Abort => ABORT_TEXT
    case Serialization => SERIALIZATION_TEXT
    case ReadOnly => READ_ONLY_TEXT
    case NotLeader => NOT_LEADER_TEXT
  }

  /** The bracketed variant name that leads an encoded message. */
  function Tag(e: Error): (t: string)
    ensures SPACE !in t
  {
    match e
    case Abort => "[Abort]"
    case Config(_) => "[Config]"
    case Internal(_) => "[Internal]"
    case Parse(_) => "[Parse]"
    case ReadOnly => "[ReadOnly]"
    case Serialization => "[Serialization]"
    case Value(_) => "[Value]"
    case NotLeader => "[NotLeader]"
  }

  /** `e` with its descriptive string replaced by `d`; string-less kinds are kept. */
  function WithDetail(e: Error, d: string): Error
  {
    match e
    case Config(_) => Config(d)
    case Internal(_) => Internal(d)
    case Parse(_) => Parse(d)
    case Value(_) => Value(d)
    case _ => e
  }

  /** `From<Error> for tonic::Status`: every error goes out under the one generic
      status code; the message is the tag of its kind, one space, then exactly its
      `Display` text (the payload verbatim, or the kind's fixed phrase). */
  function Encode(e: Error): (st: Status)
    ensures st.code == INTERNAL_CODE
    ensures st.message == Tag(e) + " " + Display(e)
  {
    var msg :=
      match e
      case Config(s) => "[Config] " + s
      case Internal(s) => "[Internal] " + s
      case Parse(s) => "[Parse] " + s
      case Value(s) => "[Value] " + s
      case Abort => "[Abort] " + ABORT_TEXT
      case ReadOnly => "[ReadOnly] " + READ_ONLY_TEXT
      case Serialization => "[Serialization] " + SERIALIZATION_TEXT
      case NotLeader => "[NotLeader] " + NOT_LEADER_TEXT;
    Status(INTERNAL_CODE, msg)
  }

  /** `From<tonic::Status> for Error`. The status code is not consulted. */
  function Decode(st: Status): Error
  {
    var chunks := Split(st.message);
    var rest := Join(chunks[1..]);
    if chunks[0] == "[Config]" then Config(rest)
    else if chunks[0] == "[Internal]" then Internal(rest)
    else if chunks[0] == "[Parse]" then Parse(rest)
    else if chunks[0] == "[Value]" then Value(rest)
    else if chunks[0] == "[Abort]" then Abort
    else if chunks[0] == "[ReadOnly]" then ReadOnly
    else if chunks[0] == "[Serialization]" then Serialization
    else if chunks[0] == "[NotLeader]" then NotLeader
    else Internal(UNKNOWN_PREFIX + DebugQuote(st.message))
  }

  /** The eight tags decoding recognises. */
  const TAGS: set<string> :=
    {"[Abort]", "[Config]", "[Internal]", "[Parse]",
     "[ReadOnly]", "[Serialization]", "[Value]", "[NotLeader]"}

  lemma TagShape(e: Error)
    ensures Tag(e) in TAGS
  {
  }

  /** The chunks of a message led by the tag of `e`: the tag, then chunks that
      join back to `rest`. */
  lemma TaggedChunks(e: Error, rest: string, m: string)
    requires m == Tag(e) + " " + rest || (m == Tag(e) && rest == "")
    ensures Split(m)[0] == Tag(e) && Join(Split(m)[1..]) == rest
  {
    if m == Tag(e) + " " + rest {
      SplitAfterWord(Tag(e), rest);
      assert Split(m)[1..] == Split(rest);
      JoinSplit(rest);
    } else {
      SplitNoSpace(Tag(e));
    }
  }

  /** A message led by the tag of `e` (alone, or followed by a space and `rest`)
      decodes to the kind of `e`, carrying `rest` when the kind carries a string and
      discarding it otherwise. */
  lemma DecodeTagged(code: nat, e: Error, rest: string, m: string)
    requires m == Tag(e) + " " + rest || (m == Tag(e) && rest == "")
    ensures Decode(Status(code, m)) == WithDetail(e, rest)
  {
    TaggedChunks(e, rest, m);
  }

  /** A message whose first space-delimited word is not one of the eight tags
      becomes an `Internal` error that quotes the whole message. */
  lemma DecodeFallback(code: nat, m: string)
    requires FirstWord(m) !in TAGS
    ensures Decode(Status(code, m)) == Internal(UNKNOWN_PREFIX + DebugQuote(m))
    ensures Unquote(Decode(Status(code, m)).detail[|UNKNOWN_PREFIX|..]) == Some(m)
  {
    var w := Split(m)[0];
    assert w == FirstWord(m) && w !in TAGS;
    assert Decode(Status(code, m)) == Internal(UNKNOWN_PREFIX + DebugQuote(m));
    UnquoteDebugQuote(m);
  }

  /** DecodeTagged and DecodeFallback cover every message: the first word is a
      tag exactly when the message is that tag alone or that tag followed by a
      space. */
  lemma LeadingTagIffFirstWord(m: string)
    ensures FirstWord(m) in TAGS <==>
            exists e: Error :: m == Tag(e) || Tag(e) + " " <= m
  {
    var w := FirstWord(m);
    if w in TAGS {
      var e := TagOwner(w);
      if |w| < |m| {
        assert m[..|w| + 1] == w + " ";
      } else {
        assert m == w;
      }
    }
    forall e: Error | m == Tag(e) || Tag(e) + " " <= m
      ensures w in TAGS
    {
      TagShape(e);
      FirstWordOfTagged(m, Tag(e));
    }
  }

  /** An error whose tag is `t`. */
  function TagOwner(t: string): (e: Error)
    requires t in TAGS
    ensures Tag(e) == t
  {
    if t == "[Abort]" then Abort
    else if t == "[Config]" then Config("")
    else if t == "[Internal]" then Internal("")
    else if t == "[Parse]" then Parse("")
    else if t == "[ReadOnly]" then ReadOnly
    else if t == "[Serialization]" then Serialization
    else if t == "[Value]" then Value("")
    else NotLeader
  }

  lemma {:induction false} FirstWordOfTagged(m: string, t: string)
    requires SPACE !in t
    requires m == t || t + " " <= m
    ensures FirstWord(m) == t
  {
    if t != [] {
      FirstWordOfTagged(m[1..], t[1..]);
    }
  }

  /** Decoding the encoding of any error gives it back, whatever its string holds
      (empty, leading, trailing or repeated spaces). */
  lemma {:induction false} RoundTrip(e: Error)
    ensures Decode(Encode(e)) == e
  {
    DecodeTagged(INTERNAL_CODE, e, Display(e), Encode(e).message);
  }

  /** Re-encoding a decoded error and decoding it again changes nothing. */
  lemma {:induction false} DecodeIdempotent(st: Status)
    ensures Decode(Encode(Decode(st))) == Decode(st)
  {
    RoundTrip(Decode(st));
  }

  /** Encoding is injective: distinct errors give distinct messages. */
  lemma {:induction false} EncodeInjective(e1: Error, e2: Error)
    requires Encode(e1).message == Encode(e2).message
    ensures e1 == e2
  {
    RoundTrip(e1);
    RoundTrip(e2);
  }

  /** The library errors the source converts with `From`; the text of each is the
      library's own `to_string()`, which is not part of this model. */
  datatype LibrarySource =
    | Bincode | ConfigLib | ParseLevel | SetLogger | TryFromSlice | Io | AddrParse
    | ParseFloat | ParseInt | FromUtf8 | Poison | TaskJoin | MpscSend | MpscTrySend
    | OneshotRecv

  /** The `From<…> for Error` impls: configuration and logger errors become
      `Config`, number parsing errors `Parse`, everything else `Internal`, each
      carrying the library's message unchanged. */
  function FromLibrary(source: LibrarySource, text: string): (e: Error)
    ensures e.Config? || e.Internal? || e.Parse?
    ensures e.detail == text
    ensures e.Config? <==> source in {ConfigLib, ParseLevel, SetLogger}
    ensures e.Parse? <==> source in {ParseFloat, ParseInt}
  {
    match source
    case ConfigLib | ParseLevel | SetLogger => Config(text)
    case ParseFloat | ParseInt => Parse(text)
    case _ => Internal(text)
  }
}
