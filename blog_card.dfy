/**
 * The two helpers of a blog card: how long ago a post was made, in whole
 * days, and the initials shown in the author's avatar.
 */
module BlogCard {
  import opened Text

  const MsPerDay := 1000 * 60 * 60 * 24

  function Abs(x: int): nat {
    if x < 0 then -x else x
  }

  /** Whole days between now and the post, both in milliseconds since the epoch, in either direction. */
  function DayDiff(nowMs: int, postMs: int): (days: nat)
    ensures days * MsPerDay <= Abs(nowMs - postMs) < (days + 1) * MsPerDay
  {
    Abs(nowMs - postMs) / MsPerDay
  }

  /** `getTimeAgo`. */
  function TimeAgo(nowMs: int, postMs: int): (ago: string)
    ensures ago == "Today" <==> Abs(nowMs - postMs) < MsPerDay
    ensures ago == "Yesterday" <==> MsPerDay <= Abs(nowMs - postMs) < 2 * MsPerDay
    ensures Abs(nowMs - postMs) >= 2 * MsPerDay ==> ago == NatToString(DayDiff(nowMs, postMs)) + " days ago"
  {
    var days := DayDiff(nowMs, postMs);
    if days == 0 then "Today"
    else if days == 1 then "Yesterday"
    else NatToString(days) + " days ago"
  }

  /** A post `d` milliseconds in the future gets the same label as one `d` milliseconds in the past. */
  lemma TimeAgoSymmetric(nowMs: int, d: int)
    ensures TimeAgo(nowMs, nowMs + d) == TimeAgo(nowMs, nowMs - d)
  {
    assert Abs(nowMs - (nowMs + d)) == Abs(nowMs - (nowMs - d));
  }

  /** The first character of each part; an empty part has none (`""[0]` is undefined, which `join` renders as ""). */
  function FirstChars(parts: seq<string>): (r: string)
    ensures |r| <= |parts|
  {
    if parts == [] then []
    else (if parts[0] == [] then [] else [parts[0][0]]) + FirstChars(parts[1..])
  }

  /** `getAuthorInitials`: `name.split(" ").map(n => n[0]).join("")`. */
  function Initials(name: string): string {
    FirstChars(SplitOn(name, ' '))
  }

  /**
   * An independent reading of the initials: the characters that start a word,
   * a word being a maximal run of non-space characters. `afterSpace` says
   * whether the previous character, if any, was a space.
   */
  function WordStartChars(s: string, afterSpace: bool): string {
    if s == [] then []
    else (if s[0] != ' ' && afterSpace then [s[0]] else []) + WordStartChars(s[1..], s[0] == ' ')
  }

  lemma {:induction false} FirstCharsOfSplit(s: string)
    ensures FirstChars(SplitOn(s, ' ')) == WordStartChars(s, true)
    ensures FirstChars(SplitOn(s, ' ')[1..]) == WordStartChars(s, false)
  {
    if s != [] {
      FirstCharsOfSplit(s[1..]);
      var rest := SplitOn(s[1..], ' ');
      var parts := SplitOn(s, ' ');
      if s[0] == ' ' {
        assert parts == [[]] + rest;
        assert parts[1..] == rest;
      } else {
        assert parts == [[s[0]] + rest[0]] + rest[1..];
        assert parts[1..] == rest[1..];
      }
    }
  }

  /** The initials are the first characters of the words of the name, in order. */
  lemma InitialsAreWordStarts(name: string)
    ensures Initials(name) == WordStartChars(name, true)
  {
    FirstCharsOfSplit(name);
  }

  function NonEmptyCount(parts: seq<string>): nat {
    if parts == [] then 0 else (if parts[0] == [] then 0 else 1) + NonEmptyCount(parts[1..])
  }

  /** Empty parts from leading, trailing or repeated spaces contribute nothing. */
  lemma {:induction false} InitialsLength(parts: seq<string>)
    ensures |FirstChars(parts)| == NonEmptyCount(parts)
  {
    if parts != [] {
      InitialsLength(parts[1..]);
    }
  }

  /** A name without spaces yields just its first character. */
  lemma {:induction false} SingleWordInitial(name: string)
    requires name != [] && ' ' !in name
    ensures Initials(name) == [name[0]]
  {
    InitialsAreWordStarts(name);
    NoSpaceNoWordStart(name[1..]);
  }

  lemma {:induction false} NoSpaceNoWordStart(s: string)
    requires ' ' !in s
    ensures WordStartChars(s, false) == []
  {
    if s != [] {
      assert s[0] in s;
      assert forall c :: c in s[1..] ==> c in s;
      NoSpaceNoWordStart(s[1..]);
    }
  }
}
