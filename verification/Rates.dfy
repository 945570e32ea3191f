/** How often unforced passes can compact. The interval gate compares the clock
    with the newest compaction of the whole store, whichever volume it retired. */
module Rates {
  import opened Prelude
  import opened Pass

  /** One call of the compactor: when it read the clock for its gates, when it
      committed, and how many retirements landed. */
  datatype Call = Call(force: bool, start: int, commit: int, landed: nat)

  ghost function NewestAfter(last: Option<int>, c: Call): Option<int> {
    if c.landed > 0 then Some(c.commit) else last
  }

  /** Serialized calls under a clock that never runs backwards, starting at time
      `clock` with `last` the newest compaction so far. */
  ghost predicate Timeline(g: Gates, calls: seq<Call>, last: Option<int>, clock: int)
    decreases |calls|
  {
    calls == [] ||
      var c := calls[0];
      && clock <= c.start <= c.commit
      && (c.landed > 0 && !c.force ==> IntervalOk(g, last, c.start))
      && Timeline(g, calls[1..], NewestAfter(last, c), c.commit)
  }

  /** The calls that compacted without being forced to. */
  function Unforced(calls: seq<Call>): nat {
    if calls == [] then 0
    else (if calls[0].landed > 0 && !calls[0].force then 1 else 0) + Unforced(calls[1..])
  }

  function EndOf(calls: seq<Call>, clock: int): int {
    if calls == [] then clock else EndOf(calls[1..], calls[0].commit)
  }

  lemma {:induction false} ClockAdvances(g: Gates, calls: seq<Call>, last: Option<int>, clock: int)
    requires Timeline(g, calls, last, clock)
    ensures clock <= EndOf(calls, clock)
    decreases |calls|
  {
    if calls == [] {
    } else {
      ClockAdvances(g, calls[1..], NewestAfter(last, calls[0]), calls[0].commit);
    }
  }

  /** After a compaction, every further unforced one costs a whole interval. */
  lemma {:induction false} EachCostsAnInterval(g: Gates, calls: seq<Call>, last: int, clock: int)
    requires g.minInterval >= 0 && last <= clock && Timeline(g, calls, Some(last), clock)
    ensures Unforced(calls) * g.minInterval <= EndOf(calls, clock) - last
    decreases |calls|
  {
    if calls == [] {
    } else {
      var c := calls[0];
      if c.landed > 0 {
        EachCostsAnInterval(g, calls[1..], c.commit, c.commit);
        if !c.force {
          assert (1 + Unforced(calls[1..])) * g.minInterval == g.minInterval + Unforced(calls[1..]) * g.minInterval;
        }
      } else {
        EachCostsAnInterval(g, calls[1..], last, c.commit);
      }
    }
  }

  /** In any span of time, at most one unforced compacting pass more than the
      number of whole intervals in it, whatever other calls happen in between. */
  lemma {:induction false} UnforcedRateBounded(g: Gates, calls: seq<Call>, last: Option<int>, clock: int)
    requires g.minInterval > 0 && Timeline(g, calls, last, clock)
    ensures Unforced(calls) <= 1 + (EndOf(calls, clock) - clock) / g.minInterval
    decreases |calls|
  {
    ClockAdvances(g, calls, last, clock);
    if calls == [] {
    } else {
      var c := calls[0];
      var rest, span := calls[1..], EndOf(calls, clock) - clock;
      if c.landed > 0 {
        EachCostsAnInterval(g, rest, c.commit, c.commit);
        FitsInSpan(Unforced(rest), g.minInterval, span);
      } else {
        UnforcedRateBounded(g, rest, last, c.commit);
        DivideMonotone(EndOf(rest, c.commit) - c.commit, span, g.minInterval);
      }
    }
  }

  lemma MulMonotone(a: int, b: int, d: int)
    requires d > 0
    ensures a <= b ==> a * d <= b * d
  {
  }

  lemma FitsInSpan(n: nat, interval: int, span: int)
    requires interval > 0 && n * interval <= span
    ensures n <= span / interval
  {
    MulMonotone(span / interval + 1, n, interval);
  }

  lemma DivideMonotone(a: int, b: int, d: int)
    requires d > 0 && a <= b
    ensures a / d <= b / d
  {
    MulMonotone(b / d + 1, a / d, d);
  }
}
