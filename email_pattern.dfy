/**
 * The e-mail test both authentication forms apply, the regular expression
 * `^[^\s@]+@[^\s@]+\.[^\s@]+$`. It is stated twice: as the decomposition the
 * expression describes, and as the left-to-right automaton that recognises it;
 * the two are proved to accept the same strings.
 */
module EmailPattern {
  import opened Text

  /** A character of the class `[^\s@]`. */
  predicate Plain(c: char) {
    !IsSpace(c) && c != '@'
  }

  /** `at` is the position of the one '@' of `s`; it has a character before it and every other character is plain. */
  ghost predicate SplitAt(s: string, at: int) {
    1 <= at < |s| && s[at] == '@' && forall k :: 0 <= k < |s| && k != at ==> Plain(s[k])
  }

  /** The domain part has a '.' with at least one character on each side. */
  ghost predicate HasInnerDot(d: string) {
    exists j :: 1 <= j <= |d| - 2 && d[j] == '.'
  }

  /** The regular expression, as a decomposition of the whole string. */
  ghost predicate Matches(s: string) {
    exists at :: SplitAt(s, at) && HasInnerDot(s[at + 1..])
  }

  lemma SplitAtUnique(s: string, a: int, b: int)
    requires SplitAt(s, a) && SplitAt(s, b)
    ensures a == b
  {
  }

  // ---------------------------------------------------------------- the automaton

  datatype State =
    | Start        // nothing read
    | Local        // one or more plain characters
    | AfterAt      // the local part and '@'
    | Domain       // domain characters, no '.' yet after its first character
    | DotPending   // the last domain character is the first such '.'
    | Accept       // a '.' with a character on each side has been read
    | Dead

  function Step(st: State, c: char): State {
    if !Plain(c) then (if st == Local && c == '@' then AfterAt else Dead)
    else match st
      case Start => Local
      case Local => Local
      case AfterAt => Domain
      case Domain => if c == '.' then DotPending else Domain
      case DotPending => Accept
      case Accept => Accept
      case Dead => Dead
  }

  function RunFrom(st: State, s: string): State
    decreases |s|
  {
    if s == [] then st else RunFrom(Step(st, s[0]), s[1..])
  }

  /** The test `pattern.test(s)`, run as the automaton. */
  function IsEmail(s: string): bool {
    RunFrom(Start, s) == Accept
  }

  // ---------------------------------------------------------------- the proof

  predicate AllPlain(s: string) {
    forall k :: 0 <= k < |s| ==> Plain(s[k])
  }

  /** The index of the first '@' of `p`, or `|p|` when there is none. */
  function FirstAt(p: string): (r: nat)
    ensures r <= |p| && (r < |p| ==> p[r] == '@')
    ensures forall k :: 0 <= k < r ==> p[k] != '@'
  {
    if p == [] then 0 else if p[0] == '@' then 0 else 1 + FirstAt(p[1..])
  }

  lemma SplitAtIsFirstAt(p: string, at: int)
    requires SplitAt(p, at)
    ensures FirstAt(p) == at
  {
    var r := FirstAt(p);
    if r < at {
      assert !Plain(p[r]);
    }
  }

  /** What the domain characters read so far tell the automaton. */
  ghost function DomainState(d: string): State {
    if d == [] then AfterAt
    else if HasInnerDot(d) then Accept
    else if |d| >= 2 && d[|d| - 1] == '.' then DotPending
    else Domain
  }

  /** The state the automaton must be in after reading `p`, described by `p` alone. */
  ghost function Expected(p: string): State {
    if p == [] then Start
    else if AllPlain(p) then Local
    else if SplitAt(p, FirstAt(p)) then DomainState(p[FirstAt(p) + 1..])
    else Dead
  }

  /** With the '@' fixed, reading one more plain character moves the domain state as the automaton does. */
  lemma DomainStep(d: string, c: char)
    requires AllPlain(d) && Plain(c)
    ensures DomainState(d + [c]) == Step(DomainState(d), c)
  {
    var d' := d + [c];
    if d == [] {
      assert !HasInnerDot(d');
    } else if HasInnerDot(d) {
      var j :| 1 <= j <= |d| - 2 && d[j] == '.';
      assert d'[j] == '.';
    } else if |d| >= 2 && d[|d| - 1] == '.' {
      assert d'[|d| - 1] == '.';
    }
  }

  /** Reading one more character moves the described state exactly as the automaton does. */
  lemma StepMatches(p: string, c: char)
    ensures Expected(p + [c]) == Step(Expected(p), c)
  {
    if p == [] {
      StepFromStart(c);
      assert p + [c] == [c];
    } else if AllPlain(p) {
      StepFromLocal(p, c);
    } else if SplitAt(p, FirstAt(p)) {
      StepFromSplit(p, c);
    } else {
      StepFromDead(p, c);
    }
  }

  /** The first character starts the local part when it is plain and is fatal otherwise. */
  lemma StepFromStart(c: char)
    ensures Expected([c]) == Step(Start, c)
  {
    var q := [c];
    assert q[0] == c;
    if !Plain(c) {
      assert !AllPlain(q);
      assert !SplitAt(q, FirstAt(q));
    }
  }

  /** After the local part, '@' starts the domain and any other non-plain character is fatal. */
  lemma StepFromLocal(p: string, c: char)
    requires p != [] && AllPlain(p)
    ensures Expected(p + [c]) == Step(Local, c)
  {
    var q := p + [c];
    assert forall k :: 0 <= k < |p| ==> q[k] == p[k];
    assert q[|p|] == c;
    if !Plain(c) {
      assert !AllPlain(q);
      if c == '@' {
        assert SplitAt(q, |p|);
        SplitAtIsFirstAt(q, |p|);
        assert q[|p| + 1..] == [];
      } else {
        assert !SplitAt(q, FirstAt(q));
      }
    }
  }

  /** Once the '@' is fixed, a plain character extends the domain and any other one is fatal. */
  lemma StepFromSplit(p: string, c: char)
    requires !AllPlain(p) && SplitAt(p, FirstAt(p))
    ensures Expected(p + [c]) == Step(DomainState(p[FirstAt(p) + 1..]), c)
  {
    var at := FirstAt(p);
    if Plain(c) {
      ExtendedDomain(p, c, at);
      DomainStep(p[at + 1..], c);
    } else {
      SplitBroken(p, c, at);
    }
  }

  /** After a split, a plain character leads to the domain state of the domain extended by it. */
  lemma ExtendedDomain(p: string, c: char, at: int)
    requires SplitAt(p, at) && Plain(c)
    ensures Expected(p + [c]) == DomainState(p[at + 1..] + [c]) && AllPlain(p[at + 1..])
  {
    var q := p + [c];
    SplitExtends(p, c, at);
    assert !AllPlain(q) by { assert q[at] == '@'; }
  }

  /** A plain character appended after a split keeps the split and extends the domain part. */
  lemma SplitExtends(p: string, c: char, at: int)
    requires SplitAt(p, at) && Plain(c)
    ensures SplitAt(p + [c], at) && FirstAt(p + [c]) == at
    ensures (p + [c])[at + 1..] == p[at + 1..] + [c] && AllPlain(p[at + 1..])
  {
    var q := p + [c];
    assert forall k :: 0 <= k < |p| ==> q[k] == p[k];
    assert SplitAt(q, at);
    SplitAtIsFirstAt(q, at);
    var d := p[at + 1..];
    forall k | 0 <= k < |d| ensures Plain(d[k]) { assert d[k] == p[at + 1 + k]; }
  }

  /** A character that is not plain, appended after a split, leaves no split. */
  lemma SplitBroken(p: string, c: char, at: int)
    requires SplitAt(p, at) && !Plain(c)
    ensures Expected(p + [c]) == Dead
  {
    var q := p + [c];
    assert forall k :: 0 <= k < |p| ==> q[k] == p[k];
    assert q[|p|] == c;
    SplitAtIsFirstAt(p, at);
    assert FirstAt(q) == at;
    assert !AllPlain(q) by { assert q[at] == '@'; }
    assert !SplitAt(q, at) by { assert !Plain(q[|p|]); }
  }

  /** A text with no valid '@' split stays rejected. */
  lemma StepFromDead(p: string, c: char)
    requires p != [] && !AllPlain(p) && !SplitAt(p, FirstAt(p))
    ensures Expected(p + [c]) == Dead
  {
    var q := p + [c];
    assert !AllPlain(q) by {
      var k :| 0 <= k < |p| && !Plain(p[k]);
      assert q[k] == p[k];
    }
    SplitAtShrinks(p, c, FirstAt(q));
    SplitAtLast(p, c);
  }

  /** An '@' split before the last character is already a split of the text without it. */
  lemma SplitAtShrinks(p: string, c: char, b: int)
    ensures b < |p| && SplitAt(p + [c], b) ==> SplitAt(p, b) && FirstAt(p) == b
  {
    var q := p + [c];
    assert forall k :: 0 <= k < |p| ==> q[k] == p[k];
    if b < |p| && SplitAt(q, b) {
      SplitAtIsFirstAt(p, b);
    }
  }

  /** An '@' split at the last character leaves only plain characters before it. */
  lemma SplitAtLast(p: string, c: char)
    ensures SplitAt(p + [c], |p|) ==> AllPlain(p)
  {
    var q := p + [c];
    assert forall k :: 0 <= k < |p| ==> q[k] == p[k];
  }

  lemma {:induction false} RunFromExpected(p: string, s: string)
    ensures RunFrom(Expected(p), s) == Expected(p + s)
    decreases |s|
  {
    if s == [] {
      assert p + s == p;
    } else {
      StepMatches(p, s[0]);
      RunFromExpected(p + [s[0]], s[1..]);
      assert p + [s[0]] + s[1..] == p + s;
    }
  }

  /** The automaton accepts exactly the strings the expression describes. */
  lemma RunToMatches(s: string)
    ensures IsEmail(s) <==> Matches(s)
  {
    RunFromExpected([], s);
    assert [] + s == s;
    if Matches(s) {
      MatchReachesAccept(s);
    }
    if Expected(s) == Accept {
      AcceptIsMatch(s);
    }
  }

  lemma MatchReachesAccept(s: string)
    requires Matches(s)
    ensures Expected(s) == Accept
  {
    var at :| SplitAt(s, at) && HasInnerDot(s[at + 1..]);
    SplitAtIsFirstAt(s, at);
    assert !AllPlain(s) by { assert !Plain(s[at]); }
  }

  lemma AcceptIsMatch(s: string)
    requires Expected(s) == Accept
    ensures Matches(s)
  {
    assert s != [] && !AllPlain(s);
    assert SplitAt(s, FirstAt(s));
    assert HasInnerDot(s[FirstAt(s) + 1..]);
  }

  /** The expression is tested on the untrimmed text: white space at either end makes an e-mail invalid. */
  lemma SurroundingSpaceRejected(s: string)
    requires s != [] && (IsSpace(s[0]) || IsSpace(s[|s| - 1]))
    ensures !IsEmail(s)
  {
    RunToMatches(s);
  }

  /** A matching e-mail holds exactly one '@'. */
  lemma OneAtSign(s: string, i: int, j: int)
    requires IsEmail(s) && 0 <= i < j < |s|
    ensures !(s[i] == '@' && s[j] == '@')
  {
    RunToMatches(s);
    var at :| SplitAt(s, at) && HasInnerDot(s[at + 1..]);
  }
}
