/**
 * The two display helpers of app/dashboard/page.tsx: the badge colour of a case status
 * and the human-readable form of a status name.
 */
module Dashboard {
  import opened Arrays
  import opened Strings
  import opened Types

  // ---------------------------------------------------------------- getStatusColor

  const Gray := "bg-gray-100 text-gray-800"
  const Green := "bg-green-100 text-green-800"

  /** The `colors` object literal: its own properties. */
  const Colors: map<string, string> := map[
    "submitted" := "bg-blue-100 text-blue-800",
    "under_review" := "bg-yellow-100 text-yellow-800",
    "verified" := Green,
    "rejected" := "bg-red-100 text-red-800",
    "scheduled_for_podcast" := "bg-purple-100 text-purple-800",
    "published" := Green]

  /**
   * `getStatusColor` as intended: the colour listed for the status, gray for any other
   * string. Only the table's own entries are consulted.
   */
  function StatusColor(status: string): (r: string)
    ensures status in Colors ==> r == Colors[status]
    ensures status !in Colors ==> r == Gray
  {
    if status in Colors then Colors[status] else Gray
  }

  /** The table lists exactly the six statuses; any other string is gray. */
  lemma StatusColorTable(status: string)
    ensures status in Colors <==> ParseStatus(status).Some?
    ensures ParseStatus(status).None? ==> StatusColor(status) == Gray
  {
    assert Colors.Keys == {"submitted", "under_review", "verified", "rejected", "scheduled_for_podcast", "published"};
  }

  /** Verified and published cases share the green badge, and no other status has it. */
  lemma GreenStatuses(s: CaseStatus)
    ensures StatusColor(StatusName(s)) == Green <==> s == Verified || s == Published
  {
    StatusColorTable(StatusName(s));
    StatusNameRoundTrip(s);
  }

  /** The members every object literal inherits from Object.prototype. */
  const PrototypeMembers: set<string> := {
    "constructor", "hasOwnProperty", "isPrototypeOf", "propertyIsEnumerable",
    "toLocaleString", "toString", "valueOf", "__defineGetter__", "__defineSetter__",
    "__lookupGetter__", "__lookupSetter__", "__proto__"}

  /** What `colors[status] || gray` can evaluate to: a class string or an inherited member. */
  datatype ClassName = Class(name: string) | PrototypeMember(member: string)

  /**
   * `getStatusColor` as written. `colors[status]` also finds the inherited members of
   * Object.prototype, which are functions or objects and therefore truthy, so the
   * gray fallback is not taken for them.
   */
  function StatusColorAsWritten(status: string): (r: ClassName)
    ensures r.PrototypeMember? <==> status !in Colors && status in PrototypeMembers
  {
    if status in Colors then Class(Colors[status])
    else if status in PrototypeMembers then PrototypeMember(status)
    else Class(Gray)
  }

  /** The status "toString" gets the inherited method instead of the gray class. */
  lemma InheritedMemberLeaks()
    ensures StatusColorAsWritten("toString") == PrototypeMember("toString")
    ensures StatusColor("toString") == Gray
  {
    assert "toString" !in Colors;
  }

  /** For every other string the code as written and the intended lookup agree. */
  lemma AsWrittenAgreesElsewhere(status: string)
    requires status !in PrototypeMembers
    ensures StatusColorAsWritten(status) == Class(StatusColor(status))
  {
  }

  // ---------------------------------------------------------------- formatStatus

  /** `toUpperCase` on one character, for ASCII letters. */
  function Upper(c: char): (u: char)
    ensures ('a' <= c <= 'z') ==> u as int == c as int - 32
    ensures !('a' <= c <= 'z') ==> u == c
  {
    if 'a' <= c <= 'z' then (c as int - 32) as char else c
  }

  /** `word.charAt(0).toUpperCase() + word.slice(1)` */
  function Capitalize(w: string): (r: string)
    ensures |r| == |w|
    ensures w != [] ==> r[0] == Upper(w[0]) && r[1..] == w[1..]
  {
    if w == [] then [] else [Upper(w[0])] + w[1..]
  }

  /** `formatStatus`: split on '_', capitalise every piece, join with spaces. */
  function FormatStatus(status: string): string
  {
    Join(Map(Capitalize, Split(status, '_')), ' ')
  }

  /**
   * A character-by-character reading of the same transformation: every '_' becomes a
   * space, and every character at the start or right after a '_' is upper-cased.
   */
  function Caps(s: string, atStart: bool): (r: string)
    ensures |r| == |s|
    ensures '_' !in r
  {
    if s == [] then []
    else if s[0] == '_' then [' '] + Caps(s[1..], true)
    else [if atStart then Upper(s[0]) else s[0]] + Caps(s[1..], false)
  }

  /** Inside a piece, away from its start, characters are kept. */
  lemma {:induction false} CapsKeepsTail(q: string, t: string)
    requires '_' !in q
    ensures Caps(q + t, false) == q + Caps(t, false)
  {
    if q != [] {
      assert (q + t)[1..] == q[1..] + t;
      CapsKeepsTail(q[1..], t);
    } else {
      assert q + t == t;
    }
  }

  /** A piece followed by '_' reads as the capitalised piece followed by a space. */
  lemma CapsPiece(p: string, t: string)
    requires '_' !in p
    ensures Caps(p, true) == Capitalize(p)
    ensures Caps(p + "_" + t, true) == Capitalize(p) + " " + Caps(t, true)
  {
    if p != [] {
      CapsKeepsTail(p[1..], []);
      assert p[1..] + [] == p[1..];
      assert (p + "_" + t)[1..] == p[1..] + ("_" + t);
      CapsKeepsTail(p[1..], "_" + t);
      assert ("_" + t)[1..] == t;
    } else {
      assert p + "_" + t == "_" + t;
      assert ("_" + t)[1..] == t;
    }
  }

  /** Joining capitalised pieces with spaces is the character-wise reading of their '_' join. */
  lemma {:induction false} JoinCapitalized(pieces: seq<string>)
    requires |pieces| >= 1
    requires forall i | 0 <= i < |pieces| :: '_' !in pieces[i]
    ensures Join(Map(Capitalize, pieces), ' ') == Caps(Join(pieces, '_'), true)
    decreases |pieces|
  {
    var caps := Map(Capitalize, pieces);
    if |pieces| == 1 {
      CapsPiece(pieces[0], "");
    } else {
      JoinCapitalized(pieces[1..]);
      assert caps[1..] == Map(Capitalize, pieces[1..]);
      CapsPiece(pieces[0], Join(pieces[1..], '_'));
    }
  }

  /** `formatStatus` agrees with the character-wise reading. */
  lemma FormatStatusIsCaps(status: string)
    ensures FormatStatus(status) == Caps(status, true)
  {
    JoinCapitalized(Split(status, '_'));
  }

  /** `formatStatus` keeps the length and leaves no '_' behind. */
  lemma FormatStatusShape(status: string)
    ensures |FormatStatus(status)| == |status|
    ensures '_' !in FormatStatus(status)
  {
    FormatStatusIsCaps(status);
  }

  /** The dashboard shows "under_review" as "Under Review". */
  lemma UnderReviewExample()
    ensures FormatStatus("under_review") == "Under Review"
  {
    FormatsPieces("under", "review");
    assert "under" + "_" + "review" == "under_review";
    assert Capitalize("under") == "Under" && Capitalize("review") == "Review";
    assert "Under" + " " + "Review" == "Under Review";
  }

  /** Two plain words joined by '_' are shown as the two capitalised words. */
  lemma FormatsPieces(a: string, b: string)
    requires '_' !in a && '_' !in b
    ensures FormatStatus(a + "_" + b) == Capitalize(a) + " " + Capitalize(b)
  {
    var pieces := [a, b];
    assert pieces[1..] == [b];
    SplitUnique(pieces, a + "_" + b, '_');
    var caps := Map(Capitalize, pieces);
    assert caps[1..] == [Capitalize(b)];
    assert Join(caps, ' ') == caps[0] + " " + Join(caps[1..], ' ');
  }
}
