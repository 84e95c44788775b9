/**
 Rust's `str::split(" ")` and `[&str]::join(" ")`, the two string operations the
 status-message codec is built from. The separator is the single space character
 only; tabs, newlines and other whitespace are ordinary characters here.
 */
module Text {

  const SPACE: char := ' '

  /** The characters of `s` up to (not including) its first space: the first chunk
      that `split(" ")` yields. */
  function FirstWord(s: string): (w: string)
    ensures SPACE !in w
    ensures w <= s
    ensures |w| < |s| ==> s[|w|] == SPACE
  {
    if s == [] || s[0] == SPACE then [] else [s[0]] + FirstWord(s[1..])
  }

  /** `s.split(" ").collect::<Vec<_>>()`: the maximal space-free pieces between
      occurrences of the separator, in order. */
  function Split(s: string): (chunks: seq<string>)
    ensures |chunks| >= 1
    ensures chunks[0] == FirstWord(s)
    ensures forall i :: 0 <= i < |chunks| ==> SPACE !in chunks[i]
  {
    if s == [] then
      [""]
    else if s[0] == SPACE then
      [""] + Split(s[1..])
    else
      var rest := Split(s[1..]);
      [[s[0]] + rest[0]] + rest[1..]
  }

  /** `chunks.join(" ")`: the chunks with one space between neighbours; the empty
      slice joins to the empty string. */
  function Join(chunks: seq<string>): string
  {
    if |chunks| == 0 then ""
    else if |chunks| == 1 then chunks[0]
    else chunks[0] + [SPACE] + Join(chunks[1..])
  }

  /** Joining the chunks of `s` with single spaces gives back `s` exactly, whatever
      runs of leading, trailing or repeated spaces it holds. */
  lemma {:induction false} JoinSplit(s: string)
    ensures Join(Split(s)) == s
  {
    if s == [] {
    } else if s[0] == SPACE {
      JoinSplit(s[1..]);
      assert Split(s) == [""] + Split(s[1..]);
      assert Join(Split(s)) == "" + [SPACE] + Join(Split(s[1..]));
    } else {
      var rest := Split(s[1..]);
      JoinSplit(s[1..]);
      JoinConsHead(s[0], rest);
    }
  }

  /** Prefixing a character to the first chunk prefixes it to the joined string. */
  lemma {:induction false} JoinConsHead(c: char, chunks: seq<string>)
    requires |chunks| >= 1
    ensures Join([[c] + chunks[0]] + chunks[1..]) == [c] + Join(chunks)
  {
  }

  /** A space-free string is a single chunk. */
  lemma {:induction false} SplitNoSpace(t: string)
    requires SPACE !in t
    ensures Split(t) == [t]
  {
    if t != [] {
      SplitNoSpace(t[1..]);
      assert [t[0]] + t[1..] == t;
    }
  }

  /** Splitting a space-free word followed by a space gives that word, then the
      chunks of whatever follows the space. */
  lemma {:induction false} SplitAfterWord(t: string, u: string)
    requires SPACE !in t
    ensures Split(t + [SPACE] + u) == [t] + Split(u)
  {
    var s := t + [SPACE] + u;
    if t == [] {
      assert s[1..] == u;
    } else {
      assert s[1..] == t[1..] + [SPACE] + u;
      SplitAfterWord(t[1..], u);
      assert [t[0]] + t[1..] == t;
    }
  }

  /** The converse of JoinSplit: a non-empty list of space-free chunks is what its
      join splits into. */
  lemma {:induction false} SplitJoin(chunks: seq<string>)
    requires |chunks| >= 1
    requires forall i :: 0 <= i < |chunks| ==> SPACE !in chunks[i]
    ensures Split(Join(chunks)) == chunks
  {
    if |chunks| == 1 {
      SplitNoSpace(chunks[0]);
    } else {
      SplitJoin(chunks[1..]);
      SplitAfterWord(chunks[0], Join(chunks[1..]));
    }
  }
}
