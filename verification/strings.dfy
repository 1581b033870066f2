/**
 * The String.prototype operations the core relies on (trim, split, join, startsWith,
 * endsWith). Strings are sequences of characters.
 */
module Strings {

  /**
   * The characters JavaScript counts as white space (`\s` in a regular expression and
   * what `trim` removes): tab, line feed, vertical tab, form feed, carriage return,
   * space, the Unicode space separators, the line and paragraph separators and the
   * byte-order mark.
   */
  predicate IsWhitespace(c: char)
  {
    || c == '\t' || c == '\n' || c == '\U{000B}' || c == '\U{000C}' || c == '\r' || c == ' '
    || c == '\U{00A0}' || c == '\U{1680}' || ('\U{2000}' <= c <= '\U{200A}')
    || c == '\U{2028}' || c == '\U{2029}' || c == '\U{202F}' || c == '\U{205F}'
    || c == '\U{3000}' || c == '\U{FEFF}'
  }

  /** The leading white space removed: a suffix of `s` whose first character is not white space. */
  function TrimStart(s: string): (r: string)
    ensures |r| <= |s| && r == s[|s| - |r|..]
    ensures forall k | 0 <= k < |s| - |r| :: IsWhitespace(s[k])
    ensures r != [] ==> !IsWhitespace(r[0])
  {
    if s != [] && IsWhitespace(s[0]) then TrimStart(s[1..]) else s
  }

  /** The trailing white space removed: a prefix of `s` whose last character is not white space. */
  function TrimEnd(s: string): (r: string)
    ensures |r| <= |s| && r == s[..|r|]
    ensures forall k | |r| <= k < |s| :: IsWhitespace(s[k])
    ensures r != [] ==> !IsWhitespace(r[|r| - 1])
  {
    if s != [] && IsWhitespace(s[|s| - 1]) then TrimEnd(s[..|s| - 1]) else s
  }

  /** `trim`: white space removed from both ends. */
  function Trim(s: string): (r: string)
    ensures IsTrimmed(r)
  {
    var t := TrimStart(s);
    var r := TrimEnd(t);
    assert r != [] ==> r[0] == t[0];
    r
  }

  /** A string with no white space at either end. */
  predicate IsTrimmed(s: string)
  {
    s != [] ==> !IsWhitespace(s[0]) && !IsWhitespace(s[|s| - 1])
  }

  /**
   * `trim` keeps a contiguous slice of its input, everything outside which is white
   * space, and leaves no white space at either end.
   */
  lemma TrimSlice(s: string)
    ensures exists i, j | 0 <= i <= j <= |s| ::
      && Trim(s) == s[i..j]
      && (forall k | 0 <= k < i :: IsWhitespace(s[k]))
      && (forall k | j <= k < |s| :: IsWhitespace(s[k]))
  {
    var t := TrimStart(s);
    var r := TrimEnd(t);
    var i := |s| - |t|;
    var j := i + |r|;
    assert Trim(s) == r;
    assert t == s[i..] && r == t[..|r|];
    assert r == s[i..j];
    assert forall k | 0 <= k < i :: IsWhitespace(s[k]);
    forall k | j <= k < |s| ensures IsWhitespace(s[k]) {
      assert s[k] == t[k - i];
    }
  }

  /** `trim` is idempotent. */
  lemma TrimIdempotent(s: string)
    ensures Trim(Trim(s)) == Trim(s)
  {
    var r := Trim(s);
    assert TrimStart(r) == r;
  }

  /** `startsWith` */
  predicate StartsWith(s: string, prefix: string)
  {
    prefix <= s
  }

  /** `endsWith` */
  predicate EndsWith(s: string, suffix: string)
  {
    |suffix| <= |s| && s[|s| - |suffix|..] == suffix
  }

  /** `join(sep)` for a one-character separator: the pieces with `sep` between neighbours. */
  function Join(pieces: seq<string>, sep: char): (r: string)
  {
    if pieces == [] then ""
    else if |pieces| == 1 then pieces[0]
    else pieces[0] + [sep] + Join(pieces[1..], sep)
  }

  /**
   * `split(sep)` for a one-character separator: the maximal runs between separators,
   * at least one of them (so `""` splits into `[""]`). Joining the pieces with the same
   * separator gives back the input, and no piece contains the separator.
   */
  function Split(s: string, sep: char): (r: seq<string>)
    ensures |r| >= 1
    ensures forall i | 0 <= i < |r| :: sep !in r[i]
    ensures Join(r, sep) == s
  {
    if s == [] then [""]
    else
      var rest := Split(s[1..], sep);
      if s[0] == sep then
        assert Join([""] + rest, sep) == [sep] + Join(rest, sep);
        [""] + rest
      else
        var r := [[s[0]] + rest[0]] + rest[1..];
        JoinConsChar(rest, s[0], sep);
        r
  }

  /**
   * `split` is the only way to cut a string into separator-free pieces: any such pieces
   * that join back to `s` are `Split(s, sep)`.
   */
  lemma {:induction false} SplitUnique(pieces: seq<string>, s: string, sep: char)
    requires |pieces| >= 1
    requires forall i | 0 <= i < |pieces| :: sep !in pieces[i]
    requires Join(pieces, sep) == s
    ensures Split(s, sep) == pieces
    decreases |s|
  {
    if |pieces| >= 2 {
      assert Join(pieces, sep) == pieces[0] + [sep] + Join(pieces[1..], sep);
    }
    if s == [] {
      assert |pieces| == 1 && pieces[0] == "";
    } else if pieces[0] == [] {
      assert |pieces| >= 2;
      assert s[0] == sep && s[1..] == Join(pieces[1..], sep);
      SplitUnique(pieces[1..], s[1..], sep);
      assert pieces == [""] + pieces[1..];
    } else {
      var p := pieces[0];
      var rest := [p[1..]] + pieces[1..];
      assert rest[1..] == pieces[1..];
      assert p == [p[0]] + p[1..];
      JoinConsChar(rest, p[0], sep);
      assert [[p[0]] + rest[0]] + rest[1..] == pieces;
      assert s[0] == p[0] && s[1..] == Join(rest, sep);
      assert sep !in p[1..];
      SplitUnique(rest, s[1..], sep);
    }
  }

  /** Prefixing a character to the first piece prefixes it to the joined string. */
  lemma JoinConsChar(pieces: seq<string>, c: char, sep: char)
    requires |pieces| >= 1
    ensures Join([[c] + pieces[0]] + pieces[1..], sep) == [c] + Join(pieces, sep)
  {
    var q := [[c] + pieces[0]] + pieces[1..];
    assert q[1..] == pieces[1..];
  }
}
