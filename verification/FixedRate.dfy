/** Fixed-rate timers over the history of a run: their deadlines never drift off the first one, and
    firings plus coalesced misses account for every period. */
module FixedRateRuns {
  import opened Basics
  import opened TimerBook
  import opened Arith

  /** The unmoved firings of a timer up to now: the first deadline, and firings plus misses. */
  datatype Span = Span(first: int, periods: nat)

  ghost function SpanOf(log: seq<Event>, id: nat): Option<Span>
  {
    if log == [] then None
    else
      var before, e := log[..|log| - 1], log[|log| - 1];
      if e.id != id then SpanOf(before, id)
      else if !Rated(e) then None
      else
        match SpanOf(before, id)
        case None => Some(Span(e.scheduled, 1 + e.missed))
        case Some(span) => Some(Span(span.first, span.periods + 1 + e.missed))
  }

  /** The last firing of a span is whole periods after the first deadline, and so is what follows it;
      exactly the periods up to that firing are accounted for. */
  ghost predicate Accounts(span: Span, last: Event)
  {
    && Rated(last) && span.periods > last.missed
    && last.scheduled == span.first + (span.periods - 1 - last.missed) * last.period
    && FollowUp(last) == span.first + span.periods * last.period
    && span.periods == (last.at - span.first) / last.period + 1
  }

  /** Since it was armed or last moved, a fixed-rate timer does not drift and no period goes missing. */
  lemma {:induction false} NoDrift(log: seq<Event>, id: nat)
    requires Steady(log) && SpanOf(log, id).Some?
    ensures LastOf(log, id).Some? && Accounts(SpanOf(log, id).value, LastOf(log, id).value)
    decreases |log|
  {
    hide Missed, FollowUp, Accounts;
    var before, e := log[..|log| - 1], log[|log| - 1];
    if e.id != id {
      NoDrift(before, id);
    } else if SpanOf(before, id).Some? {
      NoDrift(before, id);
      AccountsNext(SpanOf(before, id).value, LastOf(before, id).value, e);
    } else {
      AccountsFirst(e);
    }
  }

  lemma AccountsFirst(e: Event)
    requires Rated(e) && e.scheduled <= e.at && e.missed == Missed(e.scheduled, e.period, e.at)
    ensures Accounts(Span(e.scheduled, 1 + e.missed), e)
  {
    hide Missed, NextDeadline;
    OneMore(e.scheduled, e.period, 0, e.at);
  }

  lemma AccountsNext(span: Span, last: Event, e: Event)
    requires Accounts(span, last) && Rated(e) && e.scheduled <= e.at && e.missed == Missed(e.scheduled, e.period, e.at)
    requires Rated(last) ==> e.period == last.period && e.scheduled == FollowUp(last)
    ensures Rated(last) && Accounts(Span(span.first, span.periods + 1 + e.missed), e)
  {
    hide Missed;
    OneMore(span.first, e.period, span.periods, e.at);
  }

  /** Serving the deadline after `n` periods at `last` accounts for every period up to `last`. */
  lemma OneMore(first: int, period: int, n: nat, last: int)
    requires period > 0 && first + n * period <= last
    ensures var e := first + n * period;
            var m := n + 1 + Missed(e, period, last);
            NextDeadline(e, period, last) == first + m * period && m == (last - first) / period + 1
  {
    var missed := Missed(first + n * period, period, last);
    ShiftedQuotient(last - first, period, n);
    MulDistributes(n, missed + 1, period);
  }

  lemma ShiftedQuotient(x: int, period: int, n: nat)
    requires period > 0 && n * period <= x
    ensures (x - n * period) / period == x / period - n
  {
    var q := (x - n * period) / period;
    DivBounds(x - n * period, period);
    MulDistributes(q, n, period);
    QuotientIsUnique(x, period, q + n, (x - n * period) % period);
  }
}
