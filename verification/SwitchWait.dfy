/** The waiting half of `nixnas-switch`: the result file's round trip, the exit status, and the
    wrapper's harmlessness once its unit runs. */
module SwitchWait {
  import opened Text
  import opened Switch

  // ---- The result file: printf in the ExecStopPost hook, read in the script. ----

  /** `printf '%s %s\n' "${SERVICE_RESULT:-unknown}" "${EXIT_STATUS:-0}"`. */
  function Written(o: Outcome): string {
    (if o.result == "" then "unknown" else o.result) + " " + (if o.status == "" then "0" else o.status) + "\n"
  }

  /** `read -r result status`: the first word, then the rest of the line. */
  function ReadBack(content: string): Option<Outcome> {
    var lines := Split(content, '\n');
    if |lines| < 2 then None
    else
      var words := Split(lines[0], ' ');
      Some(Outcome(words[0], Join(words[1..], ' ')))
  }

  predicate Plain(s: string) { ' ' !in s && '\n' !in s }

  /** What the script reads: an unset result is unknown, an unset status 0. */
  function Defaulted(o: Outcome): Outcome {
    Outcome(if o.result == "" then "unknown" else o.result, if o.status == "" then "0" else o.status)
  }

  lemma CaptureRoundTrip(o: Outcome)
    requires Plain(o.result) && Plain(o.status)
    ensures ReadBack(Written(o)) == Some(Defaulted(o))
  {
    var d := Defaulted(o);
    var line := d.result + [' '] + d.status;
    assert Written(o) == line + ['\n'] + [];
    SplitConcat(line, [], '\n');
    SplitPlain(line, '\n');
    SplitConcat(d.result, d.status, ' ');
    SplitPlain(d.result, ' ');
    SplitPlain(d.status, ' ');
    assert Split(line, ' ')[1..] == [d.status];
  }

  /** The script exits 0 exactly on success, or on a numeric status other than "0" that `exit`
      accepts and cuts to 0. */
  lemma ExitZeroIff(o: Outcome)
    ensures ExitCode(o) == 0 <==>
            o.result == "success" ||
            (o.status != "" && o.status != "0" && (forall c <- o.status :: IsDigit(c))
             && Val(o.status) <= SHELL_MAX && Val(o.status) % 256 == 0)
  {}

  /** The status as systemd reports it: a signal name or a plain number below 256. */
  ghost predicate Canonical(o: Outcome) {
    (exists c <- o.status :: !IsDigit(c)) || (exists n: nat :: n < 256 && o.status == Dec(n))
  }

  /** Then the script exits 0 exactly on success. */
  lemma ExitZeroIsSuccess(o: Outcome)
    requires Canonical(o)
    ensures ExitCode(o) == 0 <==> o.result == "success"
  {
    if n: nat :| n < 256 && o.status == Dec(n) {
      CanonicalStatus(o.status, n);
    }
  }

  lemma CanonicalStatus(status: string, n: nat)
    requires n < 256 && status == Dec(n)
    ensures forall c <- status :: IsDigit(c)
    ensures Val(status) % 256 == 0 ==> status == "0"
  {
    ValDec(n);
  }

  /** A failed unit's plain status is the script's own ... */
  lemma ExitStatus(o: Outcome, n: nat)
    requires o.result != "success" && 0 < n < 256 && o.status == Dec(n)
    ensures ExitCode(o) == n
  {
    ValDec(n);
  }

  /** ... and anything that is not a number, or 0, becomes 1. */
  lemma ExitOne(o: Outcome)
    requires o.result != "success" && (o.status == "" || o.status == "0" || exists c <- o.status :: !IsDigit(c))
    ensures ExitCode(o) == 1
  {}

  /** What the exit status owes to an outcome. */
  ghost predicate Tells(code: nat, o: Outcome) {
    && (o.result == "success" ==> code == 0)
    && (o.result != "success" ==>
          && (forall n: nat :: 0 < n < 256 && o.status == Dec(n) ==> code == n)
          && (o.status == "" || o.status == "0" || (exists c <- o.status :: !IsDigit(c)) ==> code == 1))
  }

  lemma ExitTells(o: Outcome)
    ensures Tells(ExitCode(o), o)
  {
    if o.result != "success" {
      forall n: nat | 0 < n < 256 && o.status == Dec(n) ensures ExitCode(o) == n { ExitStatus(o, n); }
      if o.status == "" || o.status == "0" || exists c <- o.status :: !IsDigit(c) { ExitOne(o); }
    }
  }

  // ---- After systemd-run the wrapper changes nothing. ----

  /** The wrapper has started its unit, or will never do anything again. */
  predicate Detached(pc: Pc) {
    pc.Wait? || pc.Poll? || pc.Recheck? || pc.Report? || pc.Exited? || pc.Dead?
  }

  /** A step of this wrapper. */
  predicate Of(step: Step, w: nat) { !step.ByOthers? && step.w == w }

  function Without(steps: seq<Step>, w: nat): seq<Step>
    decreases |steps|
  {
    if steps == [] then []
    else
      var n := |steps| - 1;
      Without(steps[..n], w) + if Of(steps[n], w) then [] else [steps[n]]
  }

  /** The two states differ at most in wrapper `w`. */
  ghost predicate SameBut(s: State, t: State, w: nat) {
    s.sys == t.sys && s.wrappers - {w} == t.wrappers - {w} && w in s.wrappers && w in t.wrappers
  }

  /** A detached wrapper's own steps, its death included, touch nothing else. */
  lemma OwnStep(s: State, step: Step, w: nat, atomic: bool)
    requires w in s.wrappers && Detached(s.wrappers[w].pc) && Of(step, w) && Next(s, step, atomic).Some?
    ensures var t := Next(s, step, atomic).value; SameBut(s, t, w) && Detached(t.wrappers[w].pc)
  {
    var t := Next(s, step, atomic).value;
    assert t.wrappers == s.wrappers[w := t.wrappers[w]];
  }

  /** Everybody else's steps do not see the wrapper. */
  lemma OtherStep(s: State, s': State, step: Step, w: nat, atomic: bool)
    requires SameBut(s, s', w) && !Of(step, w) && Next(s, step, atomic).Some?
    ensures Next(s', step, atomic).Some?
    ensures SameBut(Next(s, step, atomic).value, Next(s', step, atomic).value, w)
    ensures Next(s, step, atomic).value.wrappers[w] == s.wrappers[w]
  {
    if !step.ByOthers? {
      var v := step.w;
      assert v in s.wrappers <==> v in s.wrappers - {w};
      assert v in s'.wrappers <==> v in s'.wrappers - {w};
      if v in s.wrappers { assert s.wrappers[v] == (s.wrappers - {w})[v] == (s'.wrappers - {w})[v]; }
      var t, t' := Next(s, step, atomic).value, Next(s', step, atomic).value;
      assert t.wrappers == s.wrappers[v := t.wrappers[v]] && t'.wrappers == s'.wrappers[v := t'.wrappers[v]];
      assert t.wrappers[v] == t'.wrappers[v];
      assert t.wrappers - {w} == (s.wrappers - {w})[v := t.wrappers[v]];
      assert t'.wrappers - {w} == (s'.wrappers - {w})[v := t.wrappers[v]];
    }
  }

  /** Take a run from a state where the wrapper has started its unit. Leaving out every step
      of the wrapper, its death included, gives a run in which units, processes, lock, result
      files and all other wrappers fare the same. */
  lemma {:induction false} WrapperIsInvisible(s: State, steps: seq<Step>, w: nat, atomic: bool)
    requires w in s.wrappers && Detached(s.wrappers[w].pc) && Exec(s, steps, atomic).Some?
    ensures Exec(s, Without(steps, w), atomic).Some?
    ensures var t := Exec(s, steps, atomic).value;
            SameBut(t, Exec(s, Without(steps, w), atomic).value, w) && Detached(t.wrappers[w].pc)
    decreases |steps|
  {
    if steps != [] {
      var n := |steps| - 1;
      var step, kept := steps[n], Without(steps[..n], w);
      WrapperIsInvisible(s, steps[..n], w, atomic);
      var t, t' := Exec(s, steps[..n], atomic).value, Exec(s, kept, atomic).value;
      if Of(step, w) {
        OwnStep(t, step, w, atomic);
        assert Without(steps, w) == kept;
      } else {
        OtherStep(t, t', step, w, atomic);
        assert Without(steps, w) == kept + [step] && (kept + [step])[..|kept|] == kept;
      }
    }
  }
}
