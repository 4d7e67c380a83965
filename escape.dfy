/**
  `escape` (honeyshell.c): a copy of a C string with every backslash and double quote preceded
  by a backslash, built by appending to a zeroed heap buffer of twice the input's length.

  Characters stand for C's `char`; the input holds no NUL, since `strlen` ends it at the first
  one. Writing past the buffer's end is undefined behaviour in C; the model stops there and
  reports it as `overflow`.
*/
module Honeyshell {
  import opened Wrappers

  /** The two characters that are escaped. */
  predicate NeedsEscape(c: char)
  {
    c == '\\' || c == '"'
  }

  /** What one input character appends to the buffer. */
  function Piece(c: char): (p: string)
    ensures NeedsEscape(c) ==> p == ['\\', c]
    ensures !NeedsEscape(c) ==> p == [c]
  {
    if c == '\\' then "\\\\" else if c == '"' then "\\\"" else [c]
  }

  /** How many characters of `s` need escaping. */
  function CountSpecial(s: string): (n: nat)
    ensures n <= |s|
    ensures n == |s| <==> forall i :: 0 <= i < |s| ==> NeedsEscape(s[i])
  {
    if |s| == 0 then 0 else (if NeedsEscape(s[0]) then 1 else 0) + CountSpecial(s[1..])
  }

  /** The escaped text: each character replaced by its piece, in order. */
  function Escaped(s: string): (r: string)
    ensures |r| == |s| + CountSpecial(s)
  {
    if |s| == 0 then [] else Piece(s[0]) + Escaped(s[1..])
  }

  /**
    Reading escaped text back: a backslash stands for the character after it; a trailing lone
    backslash is malformed.
  */
  function Unescape(t: string): Option<string>
    decreases |t|
  {
    if |t| == 0 then Some([])
    else if t[0] == '\\' then
      if |t| == 1 then None
      else match Unescape(t[2..])
        case None => None
        case Some(rest) => Some([t[1]] + rest)
    else match Unescape(t[1..])
      case None => None
      case Some(rest) => Some([t[0]] + rest)
  }

  /** Escaping loses nothing: unescaping the result gives back the input. */
  lemma {:induction false} UnescapeEscaped(s: string)
    ensures Unescape(Escaped(s)) == Some(s)
  {
    if |s| > 0 {
      UnescapeEscaped(s[1..]);
      var p := Piece(s[0]);
      var t := Escaped(s);
      assert t == p + Escaped(s[1..]);
      if NeedsEscape(s[0]) {
        assert t[2..] == Escaped(s[1..]);
      } else {
        assert t[1..] == Escaped(s[1..]);
      }
      assert [s[0]] + s[1..] == s;
    }
  }

  /** Text with nothing to escape is copied unchanged. */
  lemma {:induction false} EscapedPlain(s: string)
    requires forall i :: 0 <= i < |s| ==> !NeedsEscape(s[i])
    ensures Escaped(s) == s
  {
    if |s| > 0 {
      EscapedPlain(s[1..]);
      assert [s[0]] + s[1..] == s;
    }
  }

  /** Escaping a character in front of `s` puts its piece in front. */
  lemma EscapedCons(c: char, s: string)
    ensures Escaped([c] + s) == Piece(c) + Escaped(s)
  {
    assert ([c] + s)[0] == c && ([c] + s)[1..] == s;
  }

  /** Escaping works character by character, so it distributes over concatenation. */
  lemma {:induction false} EscapedAppend(a: string, b: string)
    ensures Escaped(a + b) == Escaped(a) + Escaped(b)
  {
    if |a| > 0 {
      var x := a[1..];
      assert a == [a[0]] + x;
      assert a + b == [a[0]] + (x + b);
      EscapedCons(a[0], x + b);
      EscapedCons(a[0], x);
      EscapedAppend(x, b);
    } else {
      assert a + b == b;
    }
  }

  /** The escaped text of a prefix is a prefix of the escaped text. */
  lemma EscapedPrefix(s: string, i: nat)
    requires i <= |s|
    ensures Escaped(s) == Escaped(s[..i]) + Escaped(s[i..])
    ensures |Escaped(s[..i])| <= |Escaped(s)|
  {
    EscapedAppend(s[..i], s[i..]);
    assert s[..i] + s[i..] == s;
  }

  /** One more character appends its piece. */
  lemma EscapedStep(s: string, i: nat)
    requires i < |s|
    ensures Escaped(s[..i + 1]) == Escaped(s[..i]) + Piece(s[i])
  {
    EscapedAppend(s[..i], [s[i]]);
    assert s[..i] + [s[i]] == s[..i + 1];
    assert Escaped([s[i]]) == Piece(s[i]) + Escaped([]);
  }

  /** The escaped text of a prefix is no longer than the escaped text of the whole. */
  lemma EscapedLengthMono(s: string, i: nat)
    requires i <= |s|
    ensures |Escaped(s[..i])| <= |Escaped(s)|
  {
    EscapedPrefix(s, i);
  }

  /** The next character's piece extends the escaped prefix, within the escaped whole. */
  lemma PieceFits(s: string, i: nat)
    requires i < |s|
    ensures Escaped(s[..i + 1]) == Escaped(s[..i]) + Piece(s[i])
    ensures |Escaped(s[..i])| + |Piece(s[i])| <= |Escaped(s)|
  {
    EscapedStep(s, i);
    EscapedLengthMono(s, i + 1);
  }

  /** The buffer holds the C string `t`: its characters, then only NULs. */
  ghost predicate Holds(buf: seq<char>, t: string)
  {
    |t| <= |buf| && forall k :: 0 <= k < |buf| ==> buf[k] == (if k < |t| then t[k] else '\0')
  }

  /**
    One `strcat` (or the `sprintf` of one character) onto the C string `t` held in `buf`: the
    piece is written after `t`, then a NUL.
  */
  method AppendPiece(buf: array<char>, len: nat, p: string, ghost t: string)
    requires len == |t| && 1 <= |p| <= 2 && len + |p| + 1 <= buf.Length
    requires Holds(buf[..], t)
    modifies buf
    ensures Holds(buf[..], t + p)
  {
    buf[len] := p[0];
    if |p| == 2 {
      buf[len + 1] := p[1];
    }
    buf[len + |p|] := '\0';
    assert forall k :: 0 <= k < buf.Length ==> buf[k] == (if k < |t + p| then (t + p)[k] else '\0');
  }

  /**
    The escaper's loop over a zeroed buffer of `cap` characters: each input character's piece
    is appended after the text so far, followed by a NUL. It overflows exactly when the input is
    not empty and the escaped text with its terminator does not fit; otherwise the buffer holds
    the escaped text and zeros after it.
  */
  method EscapeInto(str: string, cap: nat) returns (escaped: array<char>, overflow: bool)
    requires '\0' !in str
    ensures escaped.Length == cap
    ensures overflow <==> |str| > 0 && |Escaped(str)| + 1 > cap
    ensures !overflow ==> forall k :: 0 <= k < cap ==>
      escaped[k] == (if k < |Escaped(str)| then Escaped(str)[k] else '\0')
  {
    escaped := new char[cap](_ => '\0');
    overflow := Fill(escaped, str);
  }

  /** The loop of `EscapeInto`, over a buffer that holds the empty C string. */
  method Fill(escaped: array<char>, str: string) returns (overflow: bool)
    requires Holds(escaped[..], [])
    modifies escaped
    ensures overflow <==> |str| > 0 && |Escaped(str)| + 1 > escaped.Length
    ensures !overflow ==> Holds(escaped[..], Escaped(str))
  {
    overflow := false;
    var len := 0;
    var i := 0;
    ghost var t: string := [];
    while i < |str|
      invariant 0 <= i <= |str|
      invariant t == Escaped(str[..i]) && len == |t|
      invariant i > 0 ==> len < escaped.Length
      invariant Holds(escaped[..], t)
    {
      var p := Piece(str[i]);
      PieceFits(str, i);
      if len + |p| + 1 > escaped.Length {
        overflow := true;
        return;
      }
      AppendPiece(escaped, len, p, t);
      t := t + p;
      len := len + |p|;
      i := i + 1;
    }
    assert str[..|str|] == str;
  }

  /**
    `escape(str)` as written: the buffer holds `2 * strlen(str)` characters, which is one too few
    for the terminator when every character needs escaping, the empty input included. The empty
    input writes nothing, so it does not overflow, but its buffer of length 0 holds no NUL.
  */
  method Escape(str: string) returns (escaped: array<char>, overflow: bool)
    requires '\0' !in str
    ensures escaped.Length == 2 * |str|
    ensures overflow <==> |str| > 0 && CountSpecial(str) == |str|
    ensures |Escaped(str)| + 1 <= escaped.Length <==> CountSpecial(str) < |str|
    ensures str == [] ==> !overflow && escaped.Length == 0
    ensures !overflow ==> forall k :: 0 <= k < escaped.Length ==>
      escaped[k] == (if k < |Escaped(str)| then Escaped(str)[k] else '\0')
  {
    escaped, overflow := EscapeInto(str, 2 * |str|);
  }

  /**
    The input `"` (one double quote) escapes to two characters and needs three with the
    terminator; the empty input escapes to nothing and still needs one, in a buffer of none.
  */
  lemma QuoteOverflows()
    ensures Escaped("\"") == "\\\"" && |Escaped("\"")| + 1 == 3 > 2 * |"\""|
    ensures Escaped("") == "" && |Escaped("")| + 1 == 1 > 2 * |""|
  {
    assert Escaped("\"") == Piece('"') + Escaped([]);
  }

  /**
    `escape` with a buffer one character longer, `2 * strlen(str) + 1`: it never overflows, and
    the result is the escaped text terminated by a NUL.
  */
  method EscapeFixed(str: string) returns (escaped: array<char>)
    requires '\0' !in str
    ensures escaped.Length == 2 * |str| + 1
    ensures escaped[..|Escaped(str)|] == Escaped(str) && escaped[|Escaped(str)|] == '\0'
  {
    var overflow;
    escaped, overflow := EscapeInto(str, 2 * |str| + 1);
    assert !overflow;
    assert escaped[..|Escaped(str)|] == Escaped(str);
  }
}
