/** The decoder that turns framed events into provider events, one poll at a time. */
module SseDecode {
  import opened Results

  const MAX_SSE_DATA_BYTES: nat := 1024 * 1024

  /** What a provider stream delivers. */
  datatype StreamEvent = Progress(payload: nat) | Completed

  datatype AiError = Cancelled | Unavailable | UnexpectedEof | MalformedEvent | MapperFailure(code: nat)

  datatype Item = Next(event: StreamEvent) | Fail(error: AiError)

  datatype Mapped = Batch(events: seq<StreamEvent>) | MapFailed(error: AiError)

  /** What waiting for the source can yield; the end of the script is the end of the stream. */
  datatype Arrival = CancelledWaiting | TimedOut | SourceFailed | Event(dataBytes: nat, mapped: Mapped)

  function CompletionCount(events: seq<StreamEvent>): nat {
    if events == [] then 0 else (if events[0].Completed? then 1 else 0) + CompletionCount(events[1..])
  }

  predicate Completes(events: seq<StreamEvent>) {
    CompletionCount(events) == 1 && events[|events| - 1].Completed?
  }

  predicate Malformed(events: seq<StreamEvent>) {
    CompletionCount(events) > 1 || (CompletionCount(events) == 1 && !Completes(events))
  }

  /** One arrival either ends the stream or delivers a batch. */
  datatype Verdict = Stop(error: AiError) | Deliver(events: seq<StreamEvent>)

  function Judge(a: Arrival): Verdict {
    match a
    case CancelledWaiting => Stop(Cancelled)
    case TimedOut => Stop(Unavailable)
    case SourceFailed => Stop(MalformedEvent)
    case Event(n, mapped) =>
      if n > MAX_SSE_DATA_BYTES then Stop(Unavailable)
      else if mapped.MapFailed? then Stop(mapped.error)
      else if Malformed(mapped.events) then Stop(MalformedEvent)
      else Deliver(mapped.events)
  }

  function Items(events: seq<StreamEvent>): (items: seq<Item>)
    ensures |items| == |events| && forall i | 0 <= i < |events| :: items[i] == Next(events[i])
  {
    seq(|events|, i requires 0 <= i < |events| => Next(events[i]))
  }

  /** Whether the token is cancelled at a given loop iteration: once cancelled, it stays so. */
  predicate CancelledAt(cancelAt: Option<nat>, clock: nat) {
    cancelAt.Some? && clock >= cancelAt.value
  }

  datatype State = State(pending: seq<Item>, completed: bool, terminal: bool, source: seq<Arrival>, clock: nat)

  /** Everything a state will still emit. */
  function Emissions(s: State, cancelAt: Option<nat>): seq<Item>
    decreases |s.source|, |s.pending|
  {
    if s.terminal || (s.completed && s.pending == []) then []
    else if CancelledAt(cancelAt, s.clock) then [Fail(Cancelled)]
    else if s.pending
      != [] then [s.pending[0]] + Emissions(s.(pending := s.pending[1..], clock := s.clock + 1), cancelAt)
    else if s.source == [] then [Fail(UnexpectedEof)]
    else
      match Judge(s.source[0])
      case Stop(error) => [Fail(error)]
      case Deliver(events) =>
        Emissions(State(Items(events), Completes(events), false, s.source[1..], s.clock + 1), cancelAt)
  }

  class Decoder {
    const cancelAt: Option<nat>
    var pending: seq<Item>
    var completed: bool
    var terminal: bool
    var source: seq<Arrival>
    var clock: nat

    function Now(): State
      reads this
    {
      State(pending, completed, terminal, source, clock)
    }

    constructor (source: seq<Arrival>, cancelAt: Option<nat>)
      ensures Now() == State([], false, false, source, 0) && this.cancelAt == cancelAt
    {
      this.pending, this.completed, this.terminal := [], false, false;
      this.source, this.clock, this.cancelAt := source, 0, cancelAt;
    }

    /** Takes the next arrival: a batch becomes pending, anything else is an error. */
    method Accept() returns (error: Option<AiError>)
      requires source != []
      modifies this
      ensures source == old(source)[1..] && clock == old(clock) && terminal == old(terminal)
      ensures error == (match Judge(old(source)[0]) case Stop(e) => Some(e) case Deliver(_) => None)
      ensures error.None? ==>
                var events := Judge(old(source)[0]).events;
                pending == Items(events) && completed == Completes(events)
    {
      var arrival := source[0];
      source := source[1..];
      match arrival {
        case CancelledWaiting => error := Some(Cancelled);
        case TimedOut => error := Some(Unavailable);
        case SourceFailed => error := Some(MalformedEvent);
        case Event(n, mapped) =>
          if n > MAX_SSE_DATA_BYTES { return Some(Unavailable); }
          if mapped.MapFailed? { return Some(mapped.error); }
          var count := CompletionCount(mapped.events);
          var finishes := count == 1 && mapped.events[|mapped.events| - 1].Completed?;
          if count > 1 || (count == 1 && !finishes) { return Some(MalformedEvent); }
          completed, pending := finishes, Items(mapped.events);
          error := None;
      }
    }

    /** One poll: the next item, or None when the stream has ended. */
    method Poll() returns (item: Option<Item>)
      modifies this
      ensures Emissions(old(Now()), cancelAt) == (if item.None? then [] else [item.value]) + Emissions(Now(), cancelAt)
      ensures item.None? ==> terminal || (completed && pending == [])
      ensures item.Some? ==>
                |source| < old(|source|) || (|source| == old(|source|) && |pending| < old(|pending|)) || terminal
    {
      ghost var start := Now();
      while true
        invariant Emissions(Now(), cancelAt) == Emissions(start, cancelAt)
        invariant |source| < |start.source| || Now() == start
        decreases |source|
      {
        if terminal || (completed && pending == []) {
          source := [];
          return None;
        }
        var cancelled := cancelAt.Some? && clock >= cancelAt.value;
        clock := clock + 1;
        if cancelled {
          pending, source, terminal := [], [], true;
          return Some(Fail(Cancelled));
        }
        if pending != [] {
          var first := pending[0];
          pending := pending[1..];
          return Some(first);
        }
        if source == [] {
          terminal := true;
          return Some(Fail(UnexpectedEof));
        }
        var error := Accept();
        if error.Some? {
          source, terminal := [], true;
          return Some(Fail(error.value));
        }
      }
    }

    /** Polling until the stream ends. */
    method Drain() returns (items: seq<Item>)
      modifies this
      ensures items == Emissions(old(Now()), cancelAt)
    {
      items := [];
      ghost var start := Now();
      while true
        invariant items + Emissions(Now(), cancelAt) == Emissions(start, cancelAt)
        decreases !terminal, |source|, |pending|
      {
        var item := Poll();
        if item.None? { return; }
        items := items + [item.value];
      }
    }
  }

  // ----- what a stream delivers

  /** The output nobody interrupts: batches in order, up to the first that completes, or up to the first error. */
  function Transcript(source: seq<Arrival>): (items: seq<Item>)
    ensures items != []
  {
    if source == [] then [Fail(UnexpectedEof)]
    else
      match Judge(source[0])
      case Stop(error) => [Fail(error)]
      case Deliver(events) => if Completes(events) then Items(events) else Items(events) + Transcript(source[1..])
  }

  predicate Final(item: Item) {
    item.Fail? || item.event.Completed?
  }

  /** Events that are not final, then exactly one final item. */
  predicate WellShaped(items: seq<Item>) {
    && items != [] && Final(items[|items| - 1])
    && forall i | 0 <= i < |items| - 1 :: !Final(items[i])
  }

  lemma {:induction false} CountZero(events: seq<StreamEvent>)
    ensures CompletionCount(events) == 0 <==> forall i | 0 <= i < |events| :: !events[i].Completed?
  {
    if events != [] { CountZero(events[1..]); }
  }

  lemma {:induction false} CountOneLast(events: seq<StreamEvent>)
    requires Completes(events)
    ensures forall i | 0 <= i < |events| - 1 :: !events[i].Completed?
  {
    if events[0].Completed? {
      CountZero(events[1..]);
    } else {
      CountOneLast(events[1..]);
    }
  }

  /** Every transcript is non-final events followed by one final item. */
  lemma {:induction false} TranscriptShape(source: seq<Arrival>)
    ensures WellShaped(Transcript(source))
  {
    if source != [] && Judge(source[0]).Deliver? {
      var events := Judge(source[0]).events;
      if Completes(events) {
        CountOneLast(events);
      } else {
        CountZero(events);
        TranscriptShape(source[1..]);
      }
    }
  }

  /** What an uninterrupted state will still emit. */
  function Remaining(s: State): seq<Item> {
    if s.terminal then [] else s.pending + if s.completed then [] else Transcript(s.source)
  }

  /** The whole of it, or a proper part of it followed by one cancellation. */
  predicate CutShort(out: seq<Item>, full: seq<Item>) {
    out == full || exists k | 0 <= k < |full| :: out == full[..k] + [Fail(Cancelled)]
  }

  lemma CutUnderFirst(first: Item, full: seq<Item>, out: seq<Item>)
    requires CutShort(out, full)
    ensures CutShort([first] + out, [first] + full)
  {
    if out != full {
      var k :| 0 <= k < |full| && out == full[..k] + [Fail(Cancelled)];
      assert [first] + out == ([first] + full)[..k + 1] + [Fail(Cancelled)];
    }
  }

  lemma CutAtOnce(full: seq<Item>)
    requires full != []
    ensures CutShort([Fail(Cancelled)], full)
  {
    assert full[..0] + [Fail(Cancelled)] == [Fail(Cancelled)];
  }

  lemma RemainingPops(s: State)
    requires !s.terminal && s.pending != []
    ensures Remaining(s) == [s.pending[0]] + Remaining(s.(pending := s.pending[1..], clock := s.clock + 1))
  {
    HeadApart(s.pending, if s.completed then [] else Transcript(s.source));
  }

  lemma HeadApart(items: seq<Item>, tail: seq<Item>)
    requires items != []
    ensures items + tail == [items[0]] + (items[1..] + tail)
  {
  }

  lemma RemainingDelivers(s: State)
    requires !s.terminal && !s.completed && s.pending == [] && s.source != [] && Judge(s.source[0]).Deliver?
    ensures var events := Judge(s.source[0]).events;
            Remaining(s) == Remaining(State(Items(events), Completes(events), false, s.source[1..], s.clock + 1))
  {
  }

  /** Interrupted or not, a state emits what remains, cut short by at most one cancellation. */
  lemma {:induction false} EmissionsCut(s: State, cancelAt: Option<nat>)
    ensures CutShort(Emissions(s, cancelAt), Remaining(s))
    ensures cancelAt.None? ==> Emissions(s, cancelAt) == Remaining(s)
    decreases |s.source|, |s.pending|
  {
    if s.terminal || (s.completed && s.pending == []) {
    } else if CancelledAt(cancelAt, s.clock) {
      CutAtOnce(Remaining(s));
    } else if s.pending != [] {
      var s' := s.(pending := s.pending[1..], clock := s.clock + 1);
      EmissionsCut(s', cancelAt);
      CutUnderFirst(s.pending[0], Remaining(s'), Emissions(s', cancelAt));
      RemainingPops(s);
    } else if s.source != [] && Judge(s.source[0]).Deliver? {
      var events := Judge(s.source[0]).events;
      var s' := State(Items(events), Completes(events), false, s.source[1..], s.clock + 1);
      EmissionsCut(s', cancelAt);
      RemainingDelivers(s);
    }
  }

  /**
   * Every run of the decoder, under any cancellation, timeout or failure: non-final events, then exactly one final
   * item.
   */
  lemma EveryRunIsWellShaped(source: seq<Arrival>, cancelAt: Option<nat>)
    ensures WellShaped(Emissions(State([], false, false, source, 0), cancelAt))
    ensures cancelAt.None? ==> Emissions(State([], false, false, source, 0), cancelAt) == Transcript(source)
  {
    var s := State([], false, false, source, 0);
    EmissionsCut(s, cancelAt);
    TranscriptShape(source);
    assert Remaining(s) == Transcript(source);
  }

  // ----- what each arrival does

  lemma {:induction false} CountLast(events: seq<StreamEvent>)
    requires events != []
    ensures var last := |events| - 1;
            CompletionCount(events) == CompletionCount(events[..last]) + if events[last].Completed? then 1 else 0
  {
    if |events| > 1 {
      CountLast(events[1..]);
      assert events[1..][..|events| - 2] == events[..|events| - 1][1..];
    }
  }

  /** A batch is malformed exactly when a completion is not its last event. */
  lemma MalformedExactly(events: seq<StreamEvent>)
    ensures Malformed(events) <==> exists i :: 0 <= i < |events| - 1 && events[i].Completed?
    ensures Completes(events) <==> && events != [] && events[|events| - 1].Completed?
                                   && forall i | 0 <= i < |events| - 1 :: !events[i].Completed?
  {
    if events != [] {
      CountLast(events);
      CountZero(events[..|events| - 1]);
    }
  }

  /** An event within the size limit whose batch holds progress only. */
  predicate Ordinary(a: Arrival) {
    && a.Event? && a.dataBytes <= 1024 * 1024 && a.mapped.Batch?
    && forall i | 0 <= i < |a.mapped.events| :: a.mapped.events[i].Progress?
  }

  predicate AllOrdinary(source: seq<Arrival>) {
    forall a | a in source :: Ordinary(a)
  }

  function InOrder(source: seq<Arrival>): seq<Item>
    requires AllOrdinary(source)
  {
    if source == [] then []
    else
      assert Ordinary(source[0]);
      Items(source[0].mapped.events) + InOrder(source[1..])
  }

  lemma OrdinaryStep(a: Arrival, rest: seq<Arrival>)
    requires Ordinary(a)
    ensures Transcript([a] + rest) == Items(a.mapped.events) + Transcript(rest)
  {
    MalformedExactly(a.mapped.events);
    assert ([a] + rest)[1..] == rest;
    assert Judge(([a] + rest)[0]) == Deliver(a.mapped.events) && !Completes(a.mapped.events);
  }

  lemma {:induction false} OrdinaryFirst(before: seq<Arrival>, rest: seq<Arrival>)
    requires AllOrdinary(before)
    ensures Transcript(before + rest) == InOrder(before) + Transcript(rest)
  {
    if before == [] {
      assert before + rest == rest;
    } else {
      assert Ordinary(before[0]) && before + rest == [before[0]] + (before[1..] + rest);
      var ahead := Items(before[0].mapped.events);
      OrdinaryStep(before[0], before[1..] + rest);
      OrdinaryFirst(before[1..], rest);
      assert ahead + (InOrder(before[1..]) + Transcript(rest)) == ahead + InOrder(before[1..]) + Transcript(rest);
    }
  }

  /** A stream that just ends after ordinary batches delivers them in order, then the end as an error. */
  lemma TranscriptUpToEnd(before: seq<Arrival>)
    requires AllOrdinary(before)
    ensures Transcript(before) == InOrder(before) + [Fail(UnexpectedEof)]
  {
    OrdinaryFirst(before, []);
    assert before + [] == before;
  }

  /** What a transcript is from this arrival on. */
  lemma TranscriptFrom(before: seq<Arrival>, x: Arrival, after: seq<Arrival>)
    requires AllOrdinary(before)
    ensures Transcript(before + [x] + after) == InOrder(before) + Transcript([x] + after)
  {
    OrdinaryFirst(before, [x] + after);
    assert before + [x] + after == before + ([x] + after);
  }

  /**
   * After ordinary batches, a timeout, a failure, a cancellation, an event over the limit or one that cannot be mapped
   * ends the stream with one error, whatever would have come next; so does a completion that is not the last event of
   * its batch.
   */
  lemma TranscriptUpToError(before: seq<Arrival>, x: Arrival, after: seq<Arrival>)
    requires AllOrdinary(before)
    ensures x == TimedOut ==> Transcript(before + [x] + after) == InOrder(before) + [Fail(Unavailable)]
    ensures x == SourceFailed ==> Transcript(before + [x] + after) == InOrder(before) + [Fail(MalformedEvent)]
    ensures x == CancelledWaiting ==> Transcript(before + [x] + after) == InOrder(before) + [Fail(Cancelled)]
    ensures x.Event? && x.dataBytes > 1024 * 1024 ==>
              Transcript(before + [x] + after) == InOrder(before) + [Fail(Unavailable)]
    ensures x.Event? && x.dataBytes <= 1024 * 1024 && x.mapped.MapFailed? ==>
              Transcript(before + [x] + after) == InOrder(before) + [Fail(x.mapped.error)]
    ensures x.Event? && x.dataBytes <= 1024 * 1024 && x.mapped.Batch?
            && (exists i :: 0 <= i < |x.mapped.events| - 1 && x.mapped.events[i].Completed?) ==>
              Transcript(before + [x] + after) == InOrder(before) + [Fail(MalformedEvent)]
  {
    TranscriptFrom(before, x, after);
    if x.Event? && x.mapped.Batch? { MalformedExactly(x.mapped.events); }
  }

  /** The first completion at the end of its batch ends the stream with that batch, whatever would have come next. */
  lemma TranscriptUpToCompletion(before: seq<Arrival>, x: Arrival, after: seq<Arrival>)
    requires AllOrdinary(before)
    requires x.Event? && x.dataBytes <= 1024 * 1024 && x.mapped.Batch?
    requires var events := x.mapped.events;
             && events != [] && events[|events| - 1].Completed?
             && forall i | 0 <= i < |events| - 1 :: events[i].Progress?
    ensures Transcript(before + [x] + after) == InOrder(before) + Items(x.mapped.events)
  {
    TranscriptFrom(before, x, after);
    MalformedExactly(x.mapped.events);
    assert ([x] + after)[0] == x && Judge(x) == Deliver(x.mapped.events);
  }

  // ----- when a cancellation takes effect

  /** Once cancelled, a stream emits nothing but the cancellation: one item at most for each iteration before. */
  lemma {:induction false} CancelledPromptly(s: State, n: nat)
    ensures |Emissions(s, Some(n))| <= 1 + if n > s.clock then n - s.clock else 0
    decreases |s.source|, |s.pending|
  {
    if s.terminal || (s.completed && s.pending == []) || CancelledAt(Some(n), s.clock) {
    } else if s.pending != [] {
      CancelledPromptly(s.(pending := s.pending[1..], clock := s.clock + 1), n);
    } else if s.source != [] && Judge(s.source[0]).Deliver? {
      var events := Judge(s.source[0]).events;
      CancelledPromptly(State(Items(events), Completes(events), false, s.source[1..], s.clock + 1), n);
    }
  }

  /** A cancellation that comes after everything is emitted cuts nothing short. */
  lemma {:induction false} CancelledTooLate(s: State, n: nat)
    requires n > s.clock + |Remaining(s)| + |s.source|
    ensures Emissions(s, Some(n)) == Remaining(s)
    decreases |s.source|, |s.pending|
  {
    if s.terminal || (s.completed && s.pending == []) {
    } else if s.pending != [] {
      RemainingPops(s);
      CancelledTooLate(s.(pending := s.pending[1..], clock := s.clock + 1), n);
    } else if s.source != [] && Judge(s.source[0]).Deliver? {
      var events := Judge(s.source[0]).events;
      RemainingDelivers(s);
      CancelledTooLate(State(Items(events), Completes(events), false, s.source[1..], s.clock + 1), n);
    }
  }

  /** From the start: at most one item an iteration before the cancellation, and all of them if it comes late. */
  lemma CancellationTiming(source: seq<Arrival>, n: nat)
    ensures |Emissions(State([], false, false, source, 0), Some(n))| <= n + 1
    ensures n > |Transcript(source)| + |source| ==>
              Emissions(State([], false, false, source, 0), Some(n)) == Transcript(source)
  {
    var s := State([], false, false, source, 0);
    CancelledPromptly(s, n);
    assert Remaining(s) == Transcript(source);
    if n > |Transcript(source)| + |source| { CancelledTooLate(s, n); }
  }
}
