/** The seven Cricket targets, their point values, and per-target mark
    counts (app.js keeps these as an object keyed by "20" … "15" and
    "bull"; an absent key reads as 0 through `marks[target] || 0`). */
module Targets {

  datatype Target = T20 | T19 | T18 | T17 | T16 | T15 | Bull

  /** The targets in board order, as app.js lists them. */
  const AllTargets: seq<Target> := [T20, T19, T18, T17, T16, T15, Bull]

  /** Marks needed to close a target; also the most a record ever stores. */
  const MarksToClose: nat := 3

  /** Points per excess mark: the face value, or 25 for the bull. */
  function Value(t: Target): nat
  {
    match t
    case T20 => 20
    case T19 => 19
    case T18 => 18
    case T17 => 17
    case T16 => 16
    case T15 => 15
    case Bull => 25
  }

  /** Marks per target; a missing entry counts as zero. */
  type Marks = map<Target, nat>

  function MarkOf(m: Marks, t: Target): nat
  {
    if t in m then m[t] else 0
  }

  /** The freshly initialised marks of a match record: every target at 0. */
  const ZeroMarks: Marks := map[T20 := 0, T19 := 0, T18 := 0, T17 := 0, T16 := 0, T15 := 0, Bull := 0]

  predicate Closed(m: Marks, t: Target)
  {
    MarkOf(m, t) >= MarksToClose
  }

  /** Every listed target is closed, checked along the board list. */
  predicate AllClosed(m: Marks)
  {
    forall i :: 0 <= i < |AllTargets| ==> Closed(m, AllTargets[i])
  }

  /** Every stored mark count lies in 0..3. */
  predicate MarksInRange(m: Marks)
  {
    forall t :: MarkOf(m, t) <= MarksToClose
  }

  /** Sum of the counts over the seven targets. */
  function TotalMarks(m: Marks): nat
  {
    MarkOf(m, T20) + MarkOf(m, T19) + MarkOf(m, T18) + MarkOf(m, T17)
    + MarkOf(m, T16) + MarkOf(m, T15) + MarkOf(m, Bull)
  }

  /** The board list names every target exactly once. */
  lemma AllTargetsComplete()
    ensures forall t :: t in AllTargets
    ensures |AllTargets| == 7
    ensures forall i, j :: 0 <= i < j < |AllTargets| ==> AllTargets[i] != AllTargets[j]
  {
    forall t
      ensures t in AllTargets
    {
      match t
      case T20 => assert AllTargets[0] == t;
      case T19 => assert AllTargets[1] == t;
      case T18 => assert AllTargets[2] == t;
      case T17 => assert AllTargets[3] == t;
      case T16 => assert AllTargets[4] == t;
      case T15 => assert AllTargets[5] == t;
      case Bull => assert AllTargets[6] == t;
    }
  }

  /** Checking the board list is the same as checking every target. */
  lemma AllClosedIffEveryTarget(m: Marks)
    ensures AllClosed(m) <==> forall t :: Closed(m, t)
  {
    if AllClosed(m) {
      forall t
        ensures Closed(m, t)
      {
        match t
        case T20 => assert AllTargets[0] == t;
        case T19 => assert AllTargets[1] == t;
        case T18 => assert AllTargets[2] == t;
        case T17 => assert AllTargets[3] == t;
        case T16 => assert AllTargets[4] == t;
        case T15 => assert AllTargets[5] == t;
        case Bull => assert AllTargets[6] == t;
      }
    }
  }

  /** Adding `n` to one target's count adds `n` to the total. */
  lemma TotalMarksAdd(m: Marks, t: Target, n: nat)
    ensures TotalMarks(m[t := MarkOf(m, t) + n]) == TotalMarks(m) + n
  {
    var m' := m[t := MarkOf(m, t) + n];
    assert MarkOf(m', t) == MarkOf(m, t) + n;
    forall u | u != t
      ensures MarkOf(m', u) == MarkOf(m, u)
    {
    }
  }

  lemma ZeroMarksAreZero()
    ensures forall t :: MarkOf(ZeroMarks, t) == 0
    ensures TotalMarks(ZeroMarks) == 0
    ensures MarksInRange(ZeroMarks)
  {
  }

  /** The glyph for a closed target, as the literal stands in app.js:
      the three characters U+201A U+00EC U+00E7. They are what the UTF-8
      bytes of a circled X (U+24CD) read as in the Mac Roman encoding. */
  const ClosedGlyph: string := "\U{201A}\U{00EC}\U{00E7}"

  /** The board glyph for a mark count: nothing, a slash, an X, or the
      closed glyph once the target is closed. */
  function MarksDisplay(count: int): (r: string)
    ensures r == "" <==> count <= 0
    ensures count == 1 ==> r == "/"
    ensures count == 2 ==> r == "X"
    ensures r == ClosedGlyph <==> count >= MarksToClose
  {
    if count == 0 then ""
    else if count == 1 then "/"
    else if count == 2 then "X"
    else if count >= 3 then ClosedGlyph
    else ""
  }

  /** Counts 0 to 3 each draw a different glyph, so a board cell shows
      how far its target is from closed. */
  lemma MarksDisplayDistinguishes(a: int, b: int)
    requires 0 <= a <= MarksToClose && 0 <= b <= MarksToClose
    ensures MarksDisplay(a) == MarksDisplay(b) <==> a == b
  {
    assert ClosedGlyph[0] == '\U{201A}';
  }
}
