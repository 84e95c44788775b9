/** The Some/None datatype used for partial inverses. */
module Wrappers {
  datatype Option<+T> = None | Some(value: T)
}

/**
 Rust's `{:?}` rendering of a string, as `format!("{:?}", s)` produces it: the
 text between double quotes, with the quote, the backslash and the control
 characters NUL, tab, carriage return and line feed written as backslash
 escapes. Every other character is kept as it is (see README, "Left out").
 */
module DebugFormat {
  import opened Wrappers

  const QUOTE: char := '"'
  const BACKSLASH: char := '\\'

  /** The escape that `char::escape_debug` gives one character inside a string. */
  function EscapeChar(c: char): (r: string)
  {
    match c
    case '"' => "\\\""
    case '\\' => "\\\\"
    case '\0' => "\\0"
    case '\t' => "\\t"
    case '\r' => "\\r"
    case '\n' => "\\n"
    case _ => [c]
  }

  function Escape(s: string): string
  {
    if s == [] then [] else EscapeChar(s[0]) + Escape(s[1..])
  }

  /** `format!("{:?}", s)` for a string `s`. */
  function DebugQuote(s: string): (q: string)
    ensures |q| >= 2 && q[0] == QUOTE && q[|q| - 1] == QUOTE
  {
    [QUOTE] + Escape(s) + [QUOTE]
  }

  /** Reads back the body of a quoted string; None when the body holds a bare
      quote or a backslash that starts no escape `Escape` writes. */
  function Unescape(e: string): Option<string>
  {
    if e == [] then Some([])
    else if e[0] == QUOTE then None
    else if e[0] == BACKSLASH then
      if |e| < 2 then None
      else
        var c :=
          match e[1]
          case '"' => Some(QUOTE)
          case '\\' => Some(BACKSLASH)
          case '0' => Some('\0')
          case 't' => Some('\t')
          case 'r' => Some('\r')
          case 'n' => Some('\n')
          case _ => None;
        match (c, Unescape(e[2..]))
        case (Some(x), Some(rest)) => Some([x] + rest)
        case _ => None
    else
      match Unescape(e[1..])
      case Some(rest) => Some([e[0]] + rest)
      case None => None
  }

  /** Strips the surrounding quotes and reads back the escapes. */
  function Unquote(q: string): Option<string>
  {
    if |q| >= 2 && q[0] == QUOTE && q[|q| - 1] == QUOTE then Unescape(q[1..|q| - 1])
    else None
  }

  lemma {:induction false} UnescapeEscape(s: string)
    ensures Unescape(Escape(s)) == Some(s)
  {
    if s != [] {
      UnescapeEscape(s[1..]);
      UnescapeEscapeChar(s[0], Escape(s[1..]), s[1..]);
      assert [s[0]] + s[1..] == s;
    }
  }

  /** Reading back one escaped character in front of a readable tail. */
  lemma UnescapeEscapeChar(c: char, tail: string, t: string)
    requires Unescape(tail) == Some(t)
    ensures Unescape(EscapeChar(c) + tail) == Some([c] + t)
  {
    var e := EscapeChar(c) + tail;
    if |EscapeChar(c)| == 2 {
      assert e[2..] == tail;
    } else {
      assert e[1..] == tail;
    }
  }

  /** The quoted rendering loses nothing: the original string can be read back. */
  lemma UnquoteDebugQuote(s: string)
    ensures Unquote(DebugQuote(s)) == Some(s)
  {
    var q := DebugQuote(s);
    assert q[1..|q| - 1] == Escape(s);
    UnescapeEscape(s);
  }

  /** Hence distinct strings have distinct renderings. */
  lemma DebugQuoteInjective(s: string, t: string)
    requires DebugQuote(s) == DebugQuote(t)
    ensures s == t
  {
    UnquoteDebugQuote(s);
    UnquoteDebugQuote(t);
  }
}
