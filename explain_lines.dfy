/**
 * The bullet lines of an assignment explanation (explain_utils.py): one fixed text per reason, two of
 * them quoting a text of the passenger or of the seat-type model.
 */
module ExplainLines {
  /** The reasons an explanation can give, one per bullet line. */
  datatype Reason =
    | Personalized
    | GroupCohesion
    | ModelMatched(seatType: string)
    | FemaleZoneRespected
    | WheelchairAccess
    | AccessibleFor(disability: string)
    | SeniorPriority
    | StandardAssignment

  /** The bullet line printed for a reason. */
  function ReasonLine(r: Reason): string {
    match r
    case Personalized => "• Personalized choice " + "based on past history."
    case GroupCohesion => "• Group cohesion prioritized."
    case ModelMatched(t) => "• Global model matched seat type: " + t + "."
    case FemaleZoneRespected => "• Female-only zone respected for safety."
    case WheelchairAccess => "• Accessible seat required for " + "Wheelchair (mandatory)."
    case AccessibleFor(d) => "• Accessible seat for " + d + "."
    case SeniorPriority => "• Senior priority in accessible zone."
    case StandardAssignment => "• Standard assignment " + "based on availability."
  }

  function ReasonLines(rs: seq<Reason>): seq<string> {
    seq(|rs|, k requires 0 <= k < |rs| => ReasonLine(rs[k]))
  }

  lemma {:induction false} ReasonLinesAppend(rs: seq<Reason>, more: seq<Reason>)
    ensures ReasonLines(rs + more) == ReasonLines(rs) + ReasonLines(more)
  {
  }

  /** Three characters of a reason's line that tell the kinds of reason apart. */
  function Key(r: Reason): (char, char, char) {
    match r
    case Personalized => ('P', 'e', 'i')
    case GroupCohesion => ('G', 'r', 'r')
    case ModelMatched(_) => ('G', 'l', 'c')
    case FemaleZoneRespected => ('F', 'e', ' ')
    case WheelchairAccess => ('A', 'c', 'r')
    case AccessibleFor(_) => ('A', 'c', 'f')
    case SeniorPriority => ('S', 'e', 'i')
    case StandardAssignment => ('S', 't', 'e')
  }

  predicate NoNewline(s: string) {
    forall k :: 0 <= k < |s| ==> s[k] != '\n'
  }

  /** The line of a reason quoting no text: long enough for its key characters, and without a newline. */
  predicate FixedLine(r: Reason) {
    var l := ReasonLine(r);
    |l| > 18 && (l[2], l[3], l[18]) == Key(r) && NoNewline(l)
  }

  lemma {:induction false} FixedLinePersonalized()
    ensures FixedLine(Personalized)
  {
    var a, b := "• Personalized choice ", "based on past history.";
    assert NoNewline(a) && NoNewline(b);
    assert ReasonLine(Personalized) == a + b;
  }

  lemma {:induction false} FixedLineGroup()
    ensures FixedLine(GroupCohesion)
  {
    assert NoNewline(ReasonLine(GroupCohesion));
  }

  lemma {:induction false} FixedLineFemaleZone()
    ensures FixedLine(FemaleZoneRespected)
  {
    assert NoNewline(ReasonLine(FemaleZoneRespected));
  }

  lemma {:induction false} FixedLineSenior()
    ensures FixedLine(SeniorPriority)
  {
    assert NoNewline(ReasonLine(SeniorPriority));
  }

  lemma {:induction false} FixedLineStandard()
    ensures FixedLine(StandardAssignment)
  {
    var a, b := "• Standard assignment ", "based on availability.";
    assert NoNewline(a) && NoNewline(b);
    assert ReasonLine(StandardAssignment) == a + b;
  }

  lemma {:induction false} FixedLineWheelchair()
    ensures FixedLine(WheelchairAccess)
  {
    var a, b := "• Accessible seat required for ", "Wheelchair (mandatory).";
    assert NoNewline(a) && NoNewline(b);
    assert ReasonLine(WheelchairAccess) == a + b;
  }

  /** A line quoting a text: a fixed prefix without newline, the text, then a full stop. */
  predicate QuotingLine(l: string, n: nat, t: string, key: (char, char, char)) {
    && 18 < n && |l| == n + |t| + 1
    && (l[2], l[3], l[18]) == key
    && (forall k :: 0 <= k < n ==> l[k] != '\n')
    && l[n..|l| - 1] == t && l[|l| - 1] == '.'
  }

  lemma {:induction false} QuotingLineModel(t: string)
    ensures QuotingLine(ReasonLine(ModelMatched(t)), 34, t, Key(ModelMatched(t)))
  {
    var p := "• Global model matched seat type: ";
    assert NoNewline(p) && |p| == 34;
    assert ReasonLine(ModelMatched(t)) == p + t + ".";
  }

  lemma {:induction false} QuotingLineAccessible(d: string)
    ensures QuotingLine(ReasonLine(AccessibleFor(d)), 22, d, Key(AccessibleFor(d)))
  {
    var p := "• Accessible seat for ";
    assert NoNewline(p) && |p| == 22;
    assert ReasonLine(AccessibleFor(d)) == p + d + ".";
  }

  /** A quoting line holds a newline only where the quoted text does. */
  lemma {:induction false} QuotingLineSingle(l: string, n: nat, t: string, key: (char, char, char))
    requires QuotingLine(l, n, t, key) && '\n' !in t
    ensures '\n' !in l
  {
    forall k | 0 <= k < |l| ensures l[k] != '\n' {
      if n <= k < |l| - 1 {
        assert l[k] == l[n..|l| - 1][k - n];
      }
    }
  }

  /** The key characters of a reason's line tell the kinds of reason apart, and the line holds no newline
      beyond those of the text it quotes. */
  lemma {:induction false} LineFacts(r: Reason)
    ensures |ReasonLine(r)| > 18 && (ReasonLine(r)[2], ReasonLine(r)[3], ReasonLine(r)[18]) == Key(r)
    ensures r.ModelMatched? ==> ReasonLine(r)[34..|ReasonLine(r)| - 1] == r.seatType
    ensures r.AccessibleFor? ==> ReasonLine(r)[22..|ReasonLine(r)| - 1] == r.disability
    ensures r.ModelMatched? && '\n' !in r.seatType ==> '\n' !in ReasonLine(r)
    ensures r.AccessibleFor? && '\n' !in r.disability ==> '\n' !in ReasonLine(r)
    ensures !r.ModelMatched? && !r.AccessibleFor? ==> '\n' !in ReasonLine(r)
  {
    match r
    case Personalized => FixedLinePersonalized();
    case GroupCohesion => FixedLineGroup();
    case ModelMatched(t) =>
      QuotingLineModel(t);
      if '\n' !in t {
        QuotingLineSingle(ReasonLine(r), 34, t, Key(r));
      }
    case FemaleZoneRespected => FixedLineFemaleZone();
    case WheelchairAccess => FixedLineWheelchair();
    case AccessibleFor(d) =>
      QuotingLineAccessible(d);
      if '\n' !in d {
        QuotingLineSingle(ReasonLine(r), 22, d, Key(r));
      }
    case SeniorPriority => FixedLineSenior();
    case StandardAssignment => FixedLineStandard();
  }

  /** Equal keys mean the same kind of reason, and the same reason when it quotes no text. */
  lemma {:induction false} KeyInjective(r1: Reason, r2: Reason)
    requires Key(r1) == Key(r2)
    ensures r1.ModelMatched? <==> r2.ModelMatched?
    ensures r1.AccessibleFor? <==> r2.AccessibleFor?
    ensures !r1.ModelMatched? && !r1.AccessibleFor? ==> r1 == r2
  {
  }

  /** Different reasons print different lines, so the reasons can be read back from the lines. */
  lemma {:induction false} ReasonLineInjective(r1: Reason, r2: Reason)
    requires ReasonLine(r1) == ReasonLine(r2)
    ensures r1 == r2
  {
    LineFacts(r1);
    LineFacts(r2);
    KeyInjective(r1, r2);
  }

  /** A reason line is a single line whenever the texts it quotes are. */
  lemma {:induction false} ReasonLineSingle(r: Reason)
    requires r.ModelMatched? ==> '\n' !in r.seatType
    requires r.AccessibleFor? ==> '\n' !in r.disability
    ensures '\n' !in ReasonLine(r)
  {
    LineFacts(r);
  }

  /** The lines of reasons are single lines whenever the texts they quote are. */
  lemma {:induction false} ReasonLinesSingle(rs: seq<Reason>)
    requires forall r :: r in rs && r.ModelMatched? ==> '\n' !in r.seatType
    requires forall r :: r in rs && r.AccessibleFor? ==> '\n' !in r.disability
    ensures forall k :: 0 <= k < |ReasonLines(rs)| ==> '\n' !in ReasonLines(rs)[k]
  {
    forall k | 0 <= k < |rs| ensures '\n' !in ReasonLine(rs[k]) {
      ReasonLineSingle(rs[k]);
    }
  }
}
