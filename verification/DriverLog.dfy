/** The log of a direct driver run, as `scripts/direct_driver_proof_core.py` checks it, and whose
    verdicts it holds. */
module DriverLog {
  import opened Reports
  import opened Wrappers
  import PublicRunner

  /** A line of a log that the program recognises. */
  datatype LogLine =
    | CheckingLine(harness: string) | VerdictLine(final: PublicRunner.Final) | QualifierLine(qualifiers: Qualifiers)
    | FallbackLine(count: nat) | DropLine | DemotionLine | RetryLine

  function Finals(log: seq<LogLine>): seq<PublicRunner.Final> {
    if log == [] then []
    else (if log[0].VerdictLine? then [log[0].final] else []) + Finals(log[1..])
  }

  function QualifiersOf(log: seq<LogLine>): seq<Qualifiers> {
    if log == [] then []
    else (if log[0].QualifierLine? then [log[0].qualifiers] else []) + QualifiersOf(log[1..])
  }

  /** `_validate_log`: the harness is checked somewhere, the last verdict is a proof, the last
      qualifier is clean, and nothing fell back, was dropped, demoted or retried. */
  predicate LogOk(log: seq<LogLine>, harness: string) {
    && CheckingLine(harness) in log
    && Finals(log) != [] && Finals(log)[|Finals(log)| - 1] == Proved
    && QualifiersOf(log) != [] && QualifiersOf(log)[|QualifiersOf(log)| - 1] == Clean
    && (forall i :: 0 <= i < |log| ==> log[i].FallbackLine? ==> log[i].count == 0)
    && DropLine !in log && DemotionLine !in log && RetryLine !in log
  }

  // Whose verdicts they are. A verdict is that of the harness announced last before it.

  function Attributed(log: seq<LogLine>, current: Option<string>): seq<(Option<string>, PublicRunner.Final)> {
    if log == [] then []
    else
      match log[0]
      case CheckingLine(harness) => Attributed(log[1..], Some(harness))
      case VerdictLine(final) => [(current, final)] + Attributed(log[1..], current)
      case _ => Attributed(log[1..], current)
  }

  /** The last verdict is a proof of this harness. */
  predicate ProvesOwn(log: seq<LogLine>, harness: string) {
    var verdicts := Attributed(log, None);
    verdicts != [] && verdicts[|verdicts| - 1] == (Some(harness), Proved)
  }

  predicate IsLastVerdict(log: seq<LogLine>, m: nat) {
    m < |log| && log[m].VerdictLine? && forall j :: m < j < |log| ==> !log[j].VerdictLine?
  }

  /** Line `k` announces the harness, and none is announced between it and line `m`. */
  predicate Announces(log: seq<LogLine>, harness: string, k: nat, m: nat) {
    k < m <= |log| && log[k] == CheckingLine(harness) && forall j :: k < j < m ==> !log[j].CheckingLine?
  }

  function LastChecked(log: seq<LogLine>, current: Option<string>): Option<string> {
    if log == [] then current
    else LastChecked(log[1..], if log[0].CheckingLine? then Some(log[0].harness) else current)
  }

  lemma {:induction false} NoVerdicts(log: seq<LogLine>, current: Option<string>)
    requires forall j :: 0 <= j < |log| ==> !log[j].VerdictLine?
    ensures Attributed(log, current) == [] && Finals(log) == []
  {
    if log != [] { NoVerdicts(log[1..], if log[0].CheckingLine? then Some(log[0].harness) else current); }
  }

  lemma {:induction false} LastIsAttributed(log: seq<LogLine>, current: Option<string>, m: nat)
    requires IsLastVerdict(log, m)
    ensures var verdicts, finals := Attributed(log, current), Finals(log);
            && verdicts != [] && verdicts[|verdicts| - 1] == (LastChecked(log[..m], current), log[m].final)
            && finals != [] && finals[|finals| - 1] == log[m].final
  {
    if m == 0 {
      NoVerdicts(log[1..], current);
      assert log[..0] == [];
    } else {
      var next := if log[0].CheckingLine? then Some(log[0].harness) else current;
      assert IsLastVerdict(log[1..], m - 1);
      LastIsAttributed(log[1..], next, m - 1);
      assert log[..m][1..] == log[1..][..m-1];
    }
  }

  lemma {:induction false} LastCheckedMeaning(log: seq<LogLine>, current: Option<string>, harness: string)
    requires current != Some(harness)
    ensures LastChecked(log, current) == Some(harness) <==> exists k: nat :: Announces(log, harness, k, |log|)
    decreases |log|
  {
    if log != [] {
      var rest, last := log[..|log|-1], log[|log|-1];
      LastCheckedSnoc(rest, last, current);
      assert log == rest + [last];
      LastCheckedMeaning(rest, current, harness);
      if last == CheckingLine(harness) {
        assert Announces(log, harness, |log| - 1, |log|);
      } else if last.CheckingLine? {
        assert log[|log|-1].CheckingLine? && log[|log|-1] != CheckingLine(harness);
      } else {
        forall k: nat ensures Announces(log, harness, k, |log|) <==> Announces(rest, harness, k, |rest|) {
          EndsAlike(rest, last, harness, k);
        }
      }
    }
  }

  lemma {:induction false} EndsAlike(rest: seq<LogLine>, last: LogLine, harness: string, k: nat)
    requires !last.CheckingLine?
    ensures Announces(rest + [last], harness, k, |rest| + 1) <==> Announces(rest, harness, k, |rest|)
  {
    if Announces(rest + [last], harness, k, |rest| + 1) {
      forall j | k < j < |rest| ensures !rest[j].CheckingLine? { assert (rest + [last])[j] == rest[j]; }
    }
  }

  lemma {:induction false} LastCheckedSnoc(log: seq<LogLine>, last: LogLine, current: Option<string>)
    ensures LastChecked(log + [last], current) ==
            if last.CheckingLine? then Some(last.harness) else LastChecked(log, current)
  {
    if log == [] {
      assert [] + [last] == [last] && [last][1..] == [];
    } else {
      assert (log + [last])[1..] == log[1..] + [last];
      LastCheckedSnoc(log[1..], last, if log[0].CheckingLine? then Some(log[0].harness) else current);
    }
  }

  lemma {:induction false} LastVerdict(log: seq<LogLine>) returns (m: nat)
    requires Finals(log) != []
    ensures IsLastVerdict(log, m)
  {
    if Finals(log[1..]) != [] {
      m := LastVerdict(log[1..]);
      m := m + 1;
    } else {
      m := 0;
      NoFinals(log[1..]);
    }
  }

  lemma {:induction false} NoFinals(log: seq<LogLine>)
    requires Finals(log) == []
    ensures forall j :: 0 <= j < |log| ==> !log[j].VerdictLine?
  {
    if log != [] { NoFinals(log[1..]); }
  }

  predicate IsLastQualifier(log: seq<LogLine>, q: nat) {
    q < |log| && log[q].QualifierLine? && forall j :: q < j < |log| ==> !log[j].QualifierLine?
  }

  lemma {:induction false} NoQualifiers(log: seq<LogLine>)
    ensures QualifiersOf(log) == [] <==> forall j :: 0 <= j < |log| ==> !log[j].QualifierLine?
  {
    if log != [] {
      NoQualifiers(log[1..]);
      assert log == [log[0]] + log[1..];
    }
  }

  lemma {:induction false} LastQualifier(log: seq<LogLine>) returns (q: nat)
    requires QualifiersOf(log) != []
    ensures IsLastQualifier(log, q) && log[q].qualifiers == QualifiersOf(log)[|QualifiersOf(log)| - 1]
  {
    if QualifiersOf(log[1..]) != [] {
      q := LastQualifier(log[1..]);
      q := q + 1;
    } else {
      q := 0;
      NoQualifiers(log[1..]);
      assert forall j :: 0 < j < |log| ==> log[j] == log[1..][j-1];
    }
  }

  /** What a log must hold to be accepted for a harness: the line that announces it, a proof as its last
      verdict, `clean` as its last qualifier, no fallback but of count zero, and nothing dropped,
      demoted or retried. */
  lemma {:induction false} LogMeaning(log: seq<LogLine>, harness: string)
    ensures LogOk(log, harness) <==>
              && (exists k :: 0 <= k < |log| && log[k] == CheckingLine(harness))
              && (exists m: nat :: IsLastVerdict(log, m) && log[m].final == Proved)
              && (exists q: nat :: IsLastQualifier(log, q) && log[q].qualifiers == Clean)
              && forall k :: 0 <= k < |log| ==>
                   !log[k].DropLine? && !log[k].DemotionLine? && !log[k].RetryLine? &&
                   (log[k].FallbackLine? ==> log[k].count == 0)
  {
    VerdictsMeaning(log);
    QualifiersMeaning(log);
    assert CheckingLine(harness) in log <==> exists k :: 0 <= k < |log| && log[k] == CheckingLine(harness);
  }

  lemma {:induction false} VerdictsMeaning(log: seq<LogLine>)
    ensures Finals(log) != [] && Finals(log)[|Finals(log)| - 1] == Proved <==>
              exists m: nat :: IsLastVerdict(log, m) && log[m].final == Proved
  {
    if Finals(log) != [] {
      var m := LastVerdict(log);
      LastIsAttributed(log, None, m);
      forall n: nat | IsLastVerdict(log, n) ensures n == m { assert log[m].VerdictLine? && log[n].VerdictLine?; }
    } else {
      NoFinals(log);
    }
  }

  lemma {:induction false} QualifiersMeaning(log: seq<LogLine>)
    ensures QualifiersOf(log) != [] && QualifiersOf(log)[|QualifiersOf(log)| - 1] == Clean <==>
              exists q: nat :: IsLastQualifier(log, q) && log[q].qualifiers == Clean
  {
    NoQualifiers(log);
    if QualifiersOf(log) != [] {
      var q := LastQualifier(log);
      forall n: nat | IsLastQualifier(log, n) ensures n == q {
        assert log[q].QualifierLine? && log[n].QualifierLine?;
      }
    }
  }

  /** An accepted log proves the harness it is accepted for exactly when that harness is announced
      before the last verdict and no other harness is between. */
  lemma {:induction false} AcceptedProvesOwnExactly(log: seq<LogLine>, harness: string)
    requires LogOk(log, harness)
    ensures ProvesOwn(log, harness) <==> exists k: nat, m: nat :: IsLastVerdict(log, m) && Announces(log, harness, k, m)
  {
    var m := LastVerdict(log);
    LastIsAttributed(log, None, m);
    LastCheckedMeaning(log[..m], None, harness);
    forall k: nat ensures Announces(log[..m], harness, k, m) <==> Announces(log, harness, k, m) {
      AnnouncesWithin(log, harness, k, m);
    }
    forall n: nat | IsLastVerdict(log, n) ensures n == m {
      assert log[m].VerdictLine? && log[n].VerdictLine?;
    }
  }

  lemma {:induction false} AnnouncesWithin(log: seq<LogLine>, harness: string, k: nat, m: nat)
    requires m <= |log|
    ensures Announces(log[..m], harness, k, m) <==> Announces(log, harness, k, m)
  {
    if Announces(log[..m], harness, k, m) {
      forall j | k < j < m ensures !log[j].CheckingLine? { assert log[..m][j] == log[j]; }
    }
  }

  lemma {:induction false} OneLineMore(line: LogLine, rest: seq<LogLine>, current: Option<string>)
    ensures Finals([line] + rest) == (if line.VerdictLine? then [line.final] else []) + Finals(rest)
    ensures QualifiersOf([line] + rest) == (if line.QualifierLine? then [line.qualifiers] else []) + QualifiersOf(rest)
    ensures Attributed([line] + rest, current) ==
            if line.CheckingLine? then Attributed(rest, Some(line.harness))
            else (if line.VerdictLine? then [(current, line.final)] else []) + Attributed(rest, current)
  {
    assert ([line] + rest)[1..] == rest;
  }

  lemma {:induction false} CleanProof(current: Option<string>)
    ensures var log := [VerdictLine(Proved)] + ([QualifierLine(Clean)] + []);
            Attributed(log, current) == [(current, Proved)] && Finals(log) == [Proved] && QualifiersOf(log) == [Clean]
  {
    OneLineMore(QualifierLine(Clean), [], current);
    OneLineMore(VerdictLine(Proved), [QualifierLine(Clean)] + [], current);
  }

  lemma {:induction false} VerdictsOfTwo(harness: string, other: string, rest: seq<LogLine>)
    requires Attributed(rest, Some(other)) == [(Some(other), Proved)]
    requires Finals(rest) == [Proved] && QualifiersOf(rest) == [Clean]
    ensures var log := [CheckingLine(harness)] + ([VerdictLine(Ctrexed)] + ([CheckingLine(other)] + rest));
            && Attributed(log, None) == [(Some(harness), Ctrexed), (Some(other), Proved)]
            && Finals(log) == [Ctrexed, Proved] && QualifiersOf(log) == [Clean]
  {
    var third := [CheckingLine(other)] + rest;
    var second := [VerdictLine(Ctrexed)] + third;
    OneLineMore(CheckingLine(other), rest, Some(harness));
    OneLineMore(VerdictLine(Ctrexed), third, Some(harness));
    OneLineMore(CheckingLine(harness), second, None);
  }

  /** It need not be so: a log is accepted for a harness that has a counterexample, by the proof of
      another one checked after it. */
  lemma {:induction false} OthersProofIsAccepted(harness: string, other: string)
    requires harness != other
    ensures var log := [CheckingLine(harness), VerdictLine(Ctrexed), CheckingLine(other), VerdictLine(Proved),
                        QualifierLine(Clean)];
            LogOk(log, harness) && Attributed(log, None) == [(Some(harness), Ctrexed), (Some(other), Proved)]
  {
    var log := [CheckingLine(harness), VerdictLine(Ctrexed), CheckingLine(other), VerdictLine(Proved),
                QualifierLine(Clean)];
    var rest := [VerdictLine(Proved)] + ([QualifierLine(Clean)] + []);
    CleanProof(Some(other));
    VerdictsOfTwo(harness, other, rest);
    assert log == [CheckingLine(harness)] + ([VerdictLine(Ctrexed)] + ([CheckingLine(other)] + rest));
    assert log[0] == CheckingLine(harness);
  }
}
