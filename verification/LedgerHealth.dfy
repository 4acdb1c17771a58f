/** The worker that watches the number of unbalanced journals and decides when to alert. */
module LedgerHealth {
  import opened Options

  datatype Kind = Recovered | UnbalancedJournals
  datatype Reason = StartupDetected | RecoveredCount | NewIssue | CountChanged | Reminder
  datatype Alert = Alert(kind: Kind, count: nat, reason: Reason, at: real)

  /** One round of the loop: the count read from the ledger, or none when reading it failed. */
  datatype Check = Check(count: Option<nat>, at: real)

  datatype Settings = Settings(delta: nat, reminder: real)

  /** The worker's settings: at least 1 for the delta, at least 300 seconds for the reminder. */
  function SettingsOf(interval: int, delta: int): (s: Settings)
    ensures s.delta >= 1 && s.reminder >= 300.0
  {
    var seconds := if interval < 30 then 30 else interval;
    var reminder := if seconds * 5 < 300 then 300 else seconds * 5;
    Settings(if delta < 1 then 1 else delta, reminder as real)
  }

  datatype Memory = Memory(lastCount: Option<nat>, lastAlertAt: real)

  const START := Memory(None, 0.0)

  function Distance(a: nat, b: nat): nat {
    if a < b then b - a else a - b
  }

  function ReasonFor(s: Settings, m: Memory, count: nat, now: real): Option<Reason> {
    if m.lastCount.None? then (if count > 0 then Some(StartupDetected) else None)
    else if count == 0 && m.lastCount.value > 0 then Some(RecoveredCount)
    else if count > 0 && m.lastCount.value == 0 then Some(NewIssue)
    else if count > 0 && Distance(count, m.lastCount.value) >= s.delta then Some(CountChanged)
    else if count > 0 && now - m.lastAlertAt >= s.reminder then Some(Reminder)
    else None
  }

  function AlertFor(s: Settings, m: Memory, c: Check): Option<Alert> {
    if c.count.None? then None
    else match ReasonFor(s, m, c.count.value, c.at)
      case None => None
      case Some(reason) =>
        Some(Alert(if c.count.value == 0 then Recovered else UnbalancedJournals, c.count.value, reason, c.at))
  }

  function Next(s: Settings, m: Memory, c: Check): Memory {
    if c.count.None? then m
    else Memory(c.count, if AlertFor(s, m, c).Some? then c.at else m.lastAlertAt)
  }

  class Worker {
    const settings: Settings
    var lastCount: Option<nat>
    var lastAlertAt: real
    var sent: seq<Alert>

    ghost function Remembers(): Memory
      reads this
    {
      Memory(lastCount, lastAlertAt)
    }

    constructor (interval: int, delta: int)
      ensures settings == SettingsOf(interval, delta) && Remembers() == START && sent == []
    {
      settings := SettingsOf(interval, delta);
      lastCount, lastAlertAt, sent := None, 0.0, [];
    }

    /** One round: an alert goes out or not, and the count is remembered. */
    method Round(c: Check)
      modifies this
      ensures Remembers() == Next(settings, old(Remembers()), c)
      ensures var alert := AlertFor(settings, old(Remembers()), c);
        sent == old(sent) + if alert.Some? then [alert.value] else []
    {
      if c.count.None? {
        return;
      }
      var count, reason := c.count.value, None;
      if lastCount.None? {
        if count > 0 { reason := Some(StartupDetected); }
      } else if count == 0 && lastCount.value > 0 {
        reason := Some(RecoveredCount);
      } else if count > 0 && lastCount.value == 0 {
        reason := Some(NewIssue);
      } else if count > 0 && Distance(count, lastCount.value) >= settings.delta {
        reason := Some(CountChanged);
      } else if count > 0 && c.at - lastAlertAt >= settings.reminder {
        reason := Some(Reminder);
      }
      if reason.Some? {
        sent := sent + [Alert(if count == 0 then Recovered else UnbalancedJournals, count, reason.value, c.at)];
        lastAlertAt := c.at;
      }
      lastCount := Some(count);
    }
  }

  // ---------- Runs ----------

  function MemoryAfter(s: Settings, cs: seq<Check>): Memory {
    if cs == [] then START else Next(s, MemoryAfter(s, cs[..|cs| - 1]), cs[|cs| - 1])
  }

  function Alerts(s: Settings, cs: seq<Check>): seq<Alert> {
    if cs == [] then []
    else
      var alert := AlertFor(s, MemoryAfter(s, cs[..|cs| - 1]), cs[|cs| - 1]);
      Alerts(s, cs[..|cs| - 1]) + if alert.Some? then [alert.value] else []
  }

  predicate Open(alerts: seq<Alert>) {
    alerts != [] && alerts[|alerts| - 1].kind == UnbalancedJournals
  }

  predicate Alternates(alerts: seq<Alert>) {
    forall i :: 0 <= i < |alerts| && alerts[i].kind == Recovered ==> i > 0 && alerts[i - 1].kind == UnbalancedJournals
  }

  /** In any run every RECOVERED alert directly follows an UNBALANCED one, so no two RECOVERED
      alerts follow each other; the last alert says UNBALANCED exactly when the last count read is
      positive; and RECOVERED comes with a count of 0 and UNBALANCED with another. */
  lemma {:induction false} AlertHistory(s: Settings, cs: seq<Check>)
    requires s.delta >= 1
    ensures Alternates(Alerts(s, cs))
    ensures var last := MemoryAfter(s, cs).lastCount; Open(Alerts(s, cs)) <==> last.Some? && last.value > 0
    ensures forall i :: 0 <= i < |Alerts(s, cs)| ==>
      (Alerts(s, cs)[i].kind == Recovered <==> Alerts(s, cs)[i].count == 0)
  {
    if cs != [] {
      AlertHistory(s, cs[..|cs| - 1]);
    }
  }

  /** After each check that finds unbalanced journals, the last alert is recent. */
  lemma AlertIsRecent(s: Settings, cs: seq<Check>)
    requires s.reminder > 0.0 && s.delta >= 1
    requires cs != [] && cs[|cs| - 1].count.Some? && cs[|cs| - 1].count.value > 0
    ensures cs[|cs| - 1].at - MemoryAfter(s, cs).lastAlertAt < s.reminder
  {
  }

  // ---------- When an alert goes out ----------

  /** The last count that the checks read. */
  function LastRead(cs: seq<Check>): Option<nat> {
    if cs == [] then None
    else if cs[|cs| - 1].count.Some? then cs[|cs| - 1].count
    else LastRead(cs[..|cs| - 1])
  }

  /** When the last alert went out; 0 before the first. */
  function LastAlert(alerts: seq<Alert>): real {
    if alerts == [] then 0.0 else alerts[|alerts| - 1].at
  }

  /** What the worker remembers is its history. */
  lemma {:induction false} MemoryIsHistory(s: Settings, cs: seq<Check>)
    ensures MemoryAfter(s, cs).lastCount == LastRead(cs)
    ensures MemoryAfter(s, cs).lastAlertAt == LastAlert(Alerts(s, cs))
  {
    if cs != [] {
      MemoryIsHistory(s, cs[..|cs| - 1]);
    }
  }

  /** The count is positive for the first time, or became or stopped being positive. */
  ghost predicate Turns(prev: Option<nat>, count: nat) {
    match prev
    case None => count > 0
    case Some(last) => (count > 0) != (last > 0)
  }

  /** The count is positive still and moved by at least `delta`. */
  ghost predicate Moves(delta: nat, prev: Option<nat>, count: nat) {
    prev.Some? && prev.value > 0 && count > 0 && (count - prev.value >= delta || prev.value - count >= delta)
  }

  /** A check sends an alert if and only if it read a count that turned or moved, or that is positive
      while the last alert is at least `reminder` old. */
  lemma AlertIff(s: Settings, cs: seq<Check>, c: Check)
    requires s.delta >= 1
    ensures var before, after := Alerts(s, cs), Alerts(s, cs + [c]);
      var prev := LastRead(cs);
      && (after != before <==>
            && c.count.Some?
            && (Turns(prev, c.count.value) || Moves(s.delta, prev, c.count.value)
                || (prev.Some? && c.count.value > 0 && c.at - LastAlert(before) >= s.reminder)))
      && (after != before ==>
            && after == before + [after[|before|]]
            && after[|before|].count == c.count.value && after[|before|].at == c.at
            && after[|before|].kind == (if c.count.value == 0 then Recovered else UnbalancedJournals))
  {
    MemoryIsHistory(s, cs);
    assert (cs + [c])[..|cs|] == cs;
    assert |Alerts(s, cs + [c])| > |Alerts(s, cs)| ==> Alerts(s, cs + [c]) != Alerts(s, cs);
  }

  /** So alerts about an unchanged positive count are at least `reminder` apart. */
  lemma RemindersAreSpaced(s: Settings, cs: seq<Check>, c: Check)
    requires s.delta >= 1 && c.count.Some? && c.count == LastRead(cs) && c.count.value > 0
    requires Alerts(s, cs + [c]) != Alerts(s, cs)
    ensures c.at - LastAlert(Alerts(s, cs)) >= s.reminder
  {
    AlertIff(s, cs, c);
  }

  /** The reason an alert gives. */
  lemma AlertTellsReason(s: Settings, cs: seq<Check>, c: Check)
    requires s.delta >= 1 && c.count.Some? && Alerts(s, cs + [c]) != Alerts(s, cs)
    ensures |Alerts(s, cs + [c])| == |Alerts(s, cs)| + 1
    ensures var prev, reason := LastRead(cs), Alerts(s, cs + [c])[|Alerts(s, cs)|].reason;
      && (reason == StartupDetected <==> prev.None?)
      && (reason == RecoveredCount <==> prev.Some? && c.count.value == 0)
      && (reason == NewIssue <==> prev == Some(0))
      && (reason == CountChanged <==> Moves(s.delta, prev, c.count.value))
      && (reason == Reminder <==> !Turns(prev, c.count.value) && !Moves(s.delta, prev, c.count.value))
  {
    AlertIff(s, cs, c);
    MemoryIsHistory(s, cs);
    assert (cs + [c])[..|cs|] == cs;
  }

  /** The delay of reminders is five intervals, at least five minutes; an interval is half a minute at
      least. */
  lemma SettingsInSeconds(interval: int, delta: int)
    ensures var s := SettingsOf(interval, delta);
      && (interval >= 60 ==> s.reminder == (5 * interval) as real)
      && (interval < 60 ==> s.reminder == 300.0)
      && (delta >= 1 ==> s.delta == delta) && (delta < 1 ==> s.delta == 1)
  {
  }

  /** Checks `p..q` raised no alert, whether or not they could read the count. */
  predicate Quiet(s: Settings, cs: seq<Check>, p: nat, q: nat)
    requires p <= q <= |cs|
  {
    forall k :: p <= k < q ==> AlertFor(s, MemoryAfter(s, cs[..k]), cs[k]).None?
  }

  lemma MemoryStep(s: Settings, cs: seq<Check>, k: nat)
    requires k < |cs|
    ensures MemoryAfter(s, cs[..k + 1]) == Next(s, MemoryAfter(s, cs[..k]), cs[k])
  {
    assert cs[..k + 1][..k] == cs[..k];
  }

  lemma QuietStep(s: Settings, m: Memory, c: Check)
    requires s.delta >= 1 && m.lastCount.Some? && c.count.Some? && AlertFor(s, m, c).None?
    ensures Next(s, m, c).lastCount == c.count
    ensures Distance(m.lastCount.value, c.count.value) <= s.delta - 1
    ensures m.lastCount.value == 0 <==> c.count.value == 0
  {
  }

  /** While no alert goes out, the count drifts by less than `delta` a check, and neither
      reaches nor leaves zero. */
  lemma {:induction false} QuietDrift(s: Settings, cs: seq<Check>, p: nat, q: nat)
    requires s.delta >= 1 && p <= q <= |cs| && Quiet(s, cs, p, q) && MemoryAfter(s, cs[..p]).lastCount.Some?
    ensures MemoryAfter(s, cs[..q]).lastCount.Some?
    ensures var a, b := MemoryAfter(s, cs[..p]).lastCount.value, MemoryAfter(s, cs[..q]).lastCount.value;
      Distance(a, b) <= (q - p) * (s.delta - 1) && (a == 0 <==> b == 0)
    decreases q
  {
    if p < q {
      QuietDrift(s, cs, p, q - 1);
      MemoryStep(s, cs, q - 1);
      var before, after := MemoryAfter(s, cs[..q - 1]), MemoryAfter(s, cs[..q]);
      QuietRound(s, before, cs[q - 1]);
      DriftAdds(MemoryAfter(s, cs[..p]).lastCount.value, before.lastCount.value, after.lastCount.value,
        q - 1 - p, s.delta - 1);
    }
  }

  /** A round without an alert moves the count by less than `delta`; a failed one not at all. */
  lemma QuietRound(s: Settings, m: Memory, c: Check)
    requires s.delta >= 1 && m.lastCount.Some? && AlertFor(s, m, c).None?
    ensures Next(s, m, c).lastCount.Some?
    ensures Distance(m.lastCount.value, Next(s, m, c).lastCount.value) <= s.delta - 1
    ensures m.lastCount.value == 0 <==> Next(s, m, c).lastCount.value == 0
  {
    if c.count.Some? {
      QuietStep(s, m, c);
    }
  }

  lemma DriftAdds(a: nat, b: nat, c: nat, k: nat, step: nat)
    requires Distance(a, b) <= k * step && Distance(b, c) <= step
    ensures Distance(a, c) <= (k + 1) * step
  {
    assert (k + 1) * step == k * step + step;
  }
}
