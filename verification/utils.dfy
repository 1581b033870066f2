/**
 * The pure helpers of lib/utils.ts: email and phone validation and the best-effort
 * conversion of a stored field into a list of strings. Hashing, tokens and id
 * generation are foreign and appear elsewhere only as parameters.
 */
module Utils {
  import opened Wrappers
  import opened Json
  import opened Arrays
  import opened Strings

  // ---------------------------------------------------------------- isValidEmail

  /** A character matched by `[^\s@]`. */
  predicate IsPlain(c: char)
  {
    !IsWhitespace(c) && c != '@'
  }

  predicate IsAt(c: char)
  {
    c == '@'
  }

  predicate AllPlain(s: string)
  {
    All(s, IsPlain)
  }

  /** A '.' that is neither the first nor the last character. */
  predicate HasInnerDot(d: string)
  {
    exists k | 0 < k < |d| - 1 :: d[k] == '.'
  }

  /**
   * `isValidEmail`: the text before the first '@' is a nonempty local part, and the
   * rest is a domain with an inner '.'; neither contains '@' or white space.
   */
  predicate IsValidEmail(s: string)
    ensures IsValidEmail(s) ==> '@' in s && |s| >= 5
  {
    match FirstIndex(s, IsAt)
    case None => false
    case Some(k) =>
      0 < k && AllPlain(s[..k]) && AllPlain(s[k + 1..]) && HasInnerDot(s[k + 1..])
  }

  /**
   * What the regular expression `^[^\s@]+@[^\s@]+\.[^\s@]+$` matches: three nonempty
   * runs of plain characters, separated by an '@' at `i` and a '.' at `j`.
   */
  ghost predicate MatchesEmailPattern(s: string)
  {
    exists i, j | 0 < i && i + 1 < j && j + 1 < |s| ::
      && s[i] == '@'
      && s[j] == '.'
      && forall k | 0 <= k < |s| && k != i :: IsPlain(s[k])
  }

  /** `isValidEmail` accepts exactly the strings the regular expression matches. */
  lemma EmailMatchesPattern(s: string)
    ensures IsValidEmail(s) <==> MatchesEmailPattern(s)
  {
    if IsValidEmail(s) {
      var i := FirstIndex(s, IsAt).value;
      var d := s[i + 1..];
      AllAt(s[..i], IsPlain);
      AllAt(d, IsPlain);
      var m :| 0 < m < |d| - 1 && d[m] == '.';
      var j := i + 1 + m;
      assert s[j] == d[m];
      forall k | 0 <= k < |s| && k != i ensures IsPlain(s[k]) {
        if k < i { assert s[k] == s[..i][k]; } else { assert s[k] == d[k - i - 1]; }
      }
    }
    if MatchesEmailPattern(s) {
      var i, j :| 0 < i && i + 1 < j && j + 1 < |s| && s[i] == '@' && s[j] == '.'
        && forall k | 0 <= k < |s| && k != i :: IsPlain(s[k]);
      assert IsAt(s[i]);
      var f := FirstIndex(s, IsAt);
      assert f == Some(i) by {
        assert f.Some? && !IsPlain(s[f.value]);
      }
      var d := s[i + 1..];
      assert d[j - i - 1] == '.';
      AllAt(d, IsPlain);
      AllAt(s[..i], IsPlain);
      assert AllPlain(d) by {
        forall k | 0 <= k < |d| ensures IsPlain(d[k]) { assert d[k] == s[i + 1 + k]; }
      }
      assert AllPlain(s[..i]) by {
        forall k | 0 <= k < i ensures IsPlain(s[..i][k]) { assert s[..i][k] == s[k]; }
      }
    }
  }

  // ---------------------------------------------------------------- isValidPhone

  /** `\d`: an ASCII decimal digit. */
  predicate IsDigit(c: char)
  {
    '0' <= c <= '9'
  }

  /** A character of the class `[\d\s-()]`. */
  predicate IsPhoneChar(c: char)
  {
    IsDigit(c) || IsWhitespace(c) || c == '-' || c == '(' || c == ')'
  }

  /** `phone.replace(/\D/g, '').length`: how many digits a string holds. */
  function DigitCount(s: string): (r: nat)
    ensures r <= |s|
  {
    DigitCountFrom(s, 0)
  }

  /** How many digits `s` holds from position `i` on. */
  function DigitCountFrom(s: string, i: nat): (r: nat)
    ensures i <= |s| ==> r <= |s| - i
    decreases |s| - i
  {
    if i >= |s| then 0 else (if IsDigit(s[i]) then 1 else 0) + DigitCountFrom(s, i + 1)
  }

  /** The digit count is the length of the string left once every non-digit is removed. */
  lemma DigitCountIsDigitsLength(s: string)
    ensures DigitCount(s) == |Filter(s, IsDigit)|
    ensures DigitCount(s) <= |s|
  {
    DigitCountFromIsDigitsLength(s, 0);
    assert s[0..] == s;
  }

  lemma {:induction false} DigitCountFromIsDigitsLength(s: string, i: nat)
    requires i <= |s|
    ensures DigitCountFrom(s, i) == |Filter(s[i..], IsDigit)|
    decreases |s| - i
  {
    if i < |s| {
      DigitCountFromIsDigitsLength(s, i + 1);
      assert s[i..][1..] == s[i + 1..];
    }
  }

  /** Digits are counted piece by piece. */
  lemma DigitCountConcat(a: string, b: string)
    ensures DigitCount(a + b) == DigitCount(a) + DigitCount(b)
  {
    DigitCountFromConcat(a, b, 0);
  }

  lemma {:induction false} DigitCountFromConcat(a: string, b: string, i: nat)
    requires i <= |a|
    ensures DigitCountFrom(a + b, i) == DigitCountFrom(a, i) + DigitCount(b)
    decreases |a| - i
  {
    if i < |a| {
      DigitCountFromConcat(a, b, i + 1);
    } else {
      DigitCountFromShift(a, b, 0);
    }
  }

  lemma {:induction false} DigitCountFromShift(a: string, b: string, j: nat)
    requires j <= |b|
    ensures DigitCountFrom(a + b, |a| + j) == DigitCountFrom(b, j)
    decreases |b| - j
  {
    if j < |b| {
      DigitCountFromShift(a, b, j + 1);
      assert (a + b)[|a| + j] == b[j];
    }
  }

  /**
   * `isValidPhone`: an optional leading '+' followed by a nonempty run of phone
   * characters, and at least ten digits in all.
   */
  predicate IsValidPhone(s: string)
    ensures IsValidPhone(s) ==> |s| >= 10
  {
    var body := if s != [] && s[0] == '+' then s[1..] else s;
    && body != []
    && All(body, IsPhoneChar)
    && DigitCount(s) >= 10
  }

  /**
   * A valid phone number has at least ten characters, a '+' at most at its start, and
   * nothing but phone characters elsewhere.
   */
  lemma ValidPhoneShape(s: string)
    requires IsValidPhone(s)
    ensures |s| >= 10
    ensures forall k | 0 < k < |s| :: IsPhoneChar(s[k])
    ensures s[0] == '+' || IsPhoneChar(s[0])
  {
    DigitCountIsDigitsLength(s);
    var body := if s[0] == '+' then s[1..] else s;
    AllAt(body, IsPhoneChar);
    if s[0] == '+' {
      forall k | 0 < k < |s| ensures IsPhoneChar(s[k]) { assert s[k] == s[1..][k - 1]; }
    }
  }

  // ---------------------------------------------------------------- toStringArray

  predicate IsString(v: Value)
  {
    v.Str?
  }

  function AsString(v: Value): string
  {
    if v.Str? then v.s else ""
  }

  /** `value.filter(v => typeof v === 'string')`: the string elements of an array, in order. */
  function StringElements(items: seq<Value>): (r: seq<string>)
    ensures |r| <= |items|
  {
    Map(AsString, Filter(items, IsString))
  }

  /** `.filter(Boolean)` on strings: the empty ones are dropped. */
  predicate IsNonEmpty(s: string)
  {
    s != ""
  }

  /** `.replace(/^"|"$/g, '')`: one leading and one trailing double quote removed. */
  function StripQuotes(s: string): (r: string)
    ensures |s| - 2 <= |r| <= |s|
    ensures var d := if s != [] && s[0] == '"' then 1 else 0;
      var e := if |s| > d && s[|s| - 1] == '"' then 1 else 0;
      r == s[d..|s| - e]
  {
    var a := if s != [] && s[0] == '"' then s[1..] else s;
    if a != [] && a[|a| - 1] == '"' then a[..|a| - 1] else a
  }

  /** `s.trim().replace(/^"|"$/g, '')` */
  function TrimUnquote(s: string): string
  {
    StripQuotes(Trim(s))
  }

  /**
   * `toStringArray`. `parseJson` stands for JSON.parse: None when it throws.
   * Arrays keep their string elements; other non-strings give []. A trimmed string is
   * read as a Postgres array literal `{a,b}`, as a JSON array, or as comma-separated
   * text, in that order of preference.
   */
  function ToStringArray(value: Value, parseJson: string -> Option<Value>): (r: seq<string>)
    ensures value.Arr? ==> |r| <= |value.items|
  {
    match value
    case Arr(items) => StringElements(items)
    case Str(s) =>
      var t := Trim(s);
      if t == "" then []
      else if StartsWith(t, "{") && EndsWith(t, "}") then
        var inner := Trim(t[1..|t| - 1]);
        if inner == "" then []
        else Filter(Map(TrimUnquote, Split(inner, ',')), IsNonEmpty)
      else if StartsWith(t, "[") && parseJson(t).Some? && parseJson(t).value.Arr? then
        StringElements(parseJson(t).value.items)
      else
        Filter(Map(Trim, Split(t, ',')), IsNonEmpty)
    case _ => []
  }

  /** An array keeps exactly its string elements, in order. */
  lemma {:induction false} StringElementsExact(a: seq<Value>, b: seq<Value>, x: string)
    ensures StringElements(a + b) == StringElements(a) + StringElements(b)
    ensures x in StringElements(a) <==> Str(x) in a
  {
    FilterConcat(a, b, IsString);
    var fa, fb := Filter(a, IsString), Filter(b, IsString);
    MapConcat(AsString, fa, fb);
    FilterMembership(a, IsString, Str(x));
    if x in StringElements(a) {
      var i :| 0 <= i < |fa| && AsString(fa[i]) == x;
      assert fa[i] in fa;
      FilterMembership(a, IsString, fa[i]);
    }
    if Str(x) in a {
      assert Str(x) in fa;
      var i :| 0 <= i < |fa| && fa[i] == Str(x);
      assert StringElements(a)[i] == x;
    }
  }

  /** An array value keeps exactly its string elements. */
  lemma ArrayKeepsStrings(items: seq<Value>, parseJson: string -> Option<Value>, x: string)
    ensures x in ToStringArray(Arr(items), parseJson) <==> Str(x) in items
  {
    StringElementsExact(items, [], x);
  }

  /**
   * Unless the text is read as a JSON array, every element of the result is a nonempty
   * string without a comma.
   */
  lemma TextPiecesClean(s: string, parseJson: string -> Option<Value>)
    requires !StartsWith(Trim(s), "[") || parseJson(Trim(s)).None? || !parseJson(Trim(s)).value.Arr?
    ensures forall p | p in ToStringArray(Str(s), parseJson) :: p != "" && ',' !in p
  {
    var t := Trim(s);
    if t != "" {
      if StartsWith(t, "{") && EndsWith(t, "}") {
        BracePiecesClean(Trim(t[1..|t| - 1]));
      } else {
        CommaPiecesClean(t);
      }
    }
  }

  /** A value that is neither an array nor a string gives []. */
  lemma NonTextGivesEmpty(value: Value, parseJson: string -> Option<Value>)
    requires !value.Arr? && !value.Str?
    ensures ToStringArray(value, parseJson) == []
  {
  }

  /** A string that is empty after trimming gives []; so does the literal `{}`. */
  lemma BlankGivesEmpty(s: string, parseJson: string -> Option<Value>)
    requires Trim(s) == "" || Trim(s) == "{}"
    ensures ToStringArray(Str(s), parseJson) == []
  {
    if Trim(s) == "{}" {
      var t := Trim(s);
      assert t[1..|t| - 1] == "";
    }
  }

  /** Every piece of the comma-separated reading is nonempty, trimmed and free of commas. */
  lemma CommaPiecesClean(s: string)
    ensures forall p | p in Filter(Map(Trim, Split(s, ',')), IsNonEmpty) ::
      p != "" && IsTrimmed(p) && ',' !in p
  {
    TrimmedPiecesClean(Split(s, ','));
  }

  lemma {:induction false} TrimmedPiecesClean(pieces: seq<string>)
    requires forall i | 0 <= i < |pieces| :: ',' !in pieces[i]
    ensures forall p | p in Filter(Map(Trim, pieces), IsNonEmpty) ::
      p != "" && IsTrimmed(p) && ',' !in p
  {
    var trimmed := Map(Trim, pieces);
    forall p | p in Filter(trimmed, IsNonEmpty) ensures p != "" && IsTrimmed(p) && ',' !in p {
      FilterMembership(trimmed, IsNonEmpty, p);
      var i :| 0 <= i < |trimmed| && trimmed[i] == p;
      TrimKeepsOnly(pieces[i], ',');
    }
  }

  /**
   * The comma-separated reading follows the input order: the pieces of `a + "," + b`
   * are those of `a` followed by those of `b`.
   */
  lemma CommaPiecesInOrder(a: string, b: string)
    ensures Filter(Map(Trim, Split(a + "," + b, ',')), IsNonEmpty)
         == Filter(Map(Trim, Split(a, ',')), IsNonEmpty) + Filter(Map(Trim, Split(b, ',')), IsNonEmpty)
  {
    SplitConcat(a, b, ',');
    var pa, pb := Split(a, ','), Split(b, ',');
    MapConcat(Trim, pa, pb);
    FilterConcat(Map(Trim, pa), Map(Trim, pb), IsNonEmpty);
  }

  /** Splitting around a separator splits each side separately. */
  lemma {:induction false} SplitConcat(a: string, b: string, sep: char)
    ensures Split(a + [sep] + b, sep) == Split(a, sep) + Split(b, sep)
  {
    if a == [] {
      assert a + [sep] + b == [sep] + b;
      assert ([sep] + b)[1..] == b;
    } else {
      assert (a + [sep] + b)[1..] == a[1..] + [sep] + b;
      SplitConcat(a[1..], b, sep);
    }
  }

  /** Every piece of the `{...}` reading is nonempty and free of commas. */
  lemma BracePiecesClean(inner: string)
    ensures forall p | p in Filter(Map(TrimUnquote, Split(inner, ',')), IsNonEmpty) ::
      p != "" && ',' !in p
  {
    UnquotedPiecesClean(Split(inner, ','));
  }

  lemma {:induction false} UnquotedPiecesClean(pieces: seq<string>)
    requires forall i | 0 <= i < |pieces| :: ',' !in pieces[i]
    ensures forall p | p in Filter(Map(TrimUnquote, pieces), IsNonEmpty) :: p != "" && ',' !in p
  {
    var mapped := Map(TrimUnquote, pieces);
    forall p | p in Filter(mapped, IsNonEmpty) ensures p != "" && ',' !in p {
      FilterMembership(mapped, IsNonEmpty, p);
      var i :| 0 <= i < |mapped| && mapped[i] == p;
      TrimKeepsOnly(pieces[i], ',');
      StripQuotesKeepsOnly(Trim(pieces[i]), ',');
    }
  }

  /** A character absent from a string is absent once its quotes are stripped. */
  lemma StripQuotesKeepsOnly(s: string, c: char)
    requires c !in s
    ensures c !in StripQuotes(s)
  {
    var a := if s != [] && s[0] == '"' then s[1..] else s;
    assert c !in a;
  }

  /** A character absent from a string is absent from its trimmed form. */
  lemma TrimKeepsOnly(s: string, c: char)
    requires c !in s
    ensures c !in Trim(s)
  {
    var t := TrimStart(s);
    assert c !in t;
  }
}
