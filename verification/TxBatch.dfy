/** The queue of chain messages (app/batch_tx_manager.go): callers append under a mutex,
    a ticker and Stop take everything that is queued as one batch. */
module TxBatch {
  type Msg = string

  // ----- what the queue does -------------------------------------------

  /** The critical sections of the mutex, in the order in which they run. */
  datatype Event = Add(msgs: seq<Msg>) | Tick | Stop

  datatype Queue = Queue(batches: seq<seq<Msg>>, waiting: seq<Msg>, stopped: bool)

  const EMPTY := Queue([], [], false)

  function Take(q: Queue): Queue {
    if q.waiting == [] then q else q.(batches := q.batches + [q.waiting], waiting := [])
  }

  /** A second Stop panics on the closed channel before it reaches the queue. */
  function After(q: Queue, e: Event): Queue {
    match e
    case Add(msgs) => q.(waiting := q.waiting + msgs)
    case Tick => Take(q)
    case Stop => if q.stopped then q else Take(q).(stopped := true)
  }

  function Run(events: seq<Event>): Queue {
    if events == [] then EMPTY else After(Run(events[..|events| - 1]), events[|events| - 1])
  }

  // ----- the manager ---------------------------------------------------

  class BatchTxManager {
    /** `txQueue`: the first `len` cells of a backing array. */
    var buf: array<Msg>
    var len: nat
    var stopped: bool
    /** The batches handed to the client so far, and what was in them at that moment. */
    ghost var inFlight: seq<array<Msg>>
    ghost var taken: seq<seq<Msg>>

    ghost predicate Valid()
      reads this, inFlight
    {
      && len <= buf.Length
      && |inFlight| == |taken|
      && (forall i | 0 <= i < |taken| :: inFlight[i] != buf && inFlight[i][..] == taken[i])
    }

    ghost function State(): Queue
      reads this, buf
      requires len <= buf.Length
    {
      Queue(taken, buf[..len], stopped)
    }

    constructor ()
      ensures Valid() && State() == EMPTY
    {
      buf, len, stopped := new Msg[0], 0, false;
      inFlight, taken := [], [];
    }

    /** `append` writes into the spare cells when there are enough of them. */
    method AddToBatch(msgs: seq<Msg>)
      requires Valid()
      modifies this`buf, this`len, buf
      ensures Valid() && State() == After(old(State()), Add(msgs))
      ensures inFlight == old(inFlight) && forall b | b in inFlight :: b[..] == old(b[..])
      ensures forall i | 0 <= i < |inFlight| :: inFlight[i][..] == State().batches[i]
      ensures old(len) + |msgs| <= old(buf).Length ==> buf == old(buf)
      ensures buf == old(buf) || fresh(buf)
    {
      if len + |msgs| > buf.Length {
        var capacity :| capacity >= len + |msgs|;
        var grown := new Msg[capacity];
        forall i | 0 <= i < len { grown[i] := buf[i]; }
        assert grown[..len] == buf[..len];
        buf := grown;
      }
      ghost var before := buf[..len];
      forall i | 0 <= i < |msgs| { buf[len + i] := msgs[i]; }
      assert buf[..len + |msgs|] == before + msgs;
      len := len + |msgs|;
    }

    method ProcessBatch() returns (batch: array?<Msg>)
      requires Valid()
      modifies this`len, this`inFlight, this`taken
      ensures Valid() && State() == After(old(State()), Tick)
      ensures batch == null <==> old(len) == 0
      ensures batch != null ==> fresh(batch) && inFlight == old(inFlight) + [batch] && batch[..] == old(buf[..len])
      ensures buf[..] == old(buf[..]) && forall b | b in old(inFlight) :: b[..] == old(b[..])
      ensures forall i | 0 <= i < |inFlight| :: inFlight[i][..] == State().batches[i]
      ensures batch == null ==> inFlight == old(inFlight)
    {
      if len == 0 {
        assert buf[..len] == [];
        return null;
      }
      ghost var waiting := buf[..len];
      assert |waiting| > 0;
      batch := new Msg[len];
      forall i | 0 <= i < len { batch[i] := buf[i]; }
      assert batch[..] == waiting;
      inFlight, taken := inFlight + [batch], taken + [waiting];
      len := 0;
      assert buf[..len] == [];
    }

    method Stop() returns (batch: array?<Msg>)
      requires Valid() && !stopped
      modifies this`len, this`inFlight, this`taken, this`stopped
      ensures Valid() && State() == After(old(State()), Event.Stop)
      ensures old(inFlight) <= inFlight
    {
      stopped := true;
      batch := ProcessBatch();
    }
  }

  // ----- every run -----------------------------------------------------

  function Flat(batches: seq<seq<Msg>>): seq<Msg> {
    if batches == [] then [] else Flat(batches[..|batches| - 1]) + batches[|batches| - 1]
  }

  /** All the messages that callers added, in the order of the mutex. */
  function Given(events: seq<Event>): seq<Msg> {
    if events == [] then []
    else Given(events[..|events| - 1]) + (var e := events[|events| - 1]; if e.Add? then e.msgs else [])
  }

  lemma FlatPush(batches: seq<seq<Msg>>, b: seq<Msg>)
    ensures Flat(batches + [b]) == Flat(batches) + b
  {
    assert (batches + [b])[..|batches|] == batches;
  }

  lemma AfterKeepsAll(q: Queue, e: Event)
    ensures var r := After(q, e);
      Flat(r.batches) + r.waiting == Flat(q.batches) + q.waiting + (if e.Add? then e.msgs else [])
  {
    FlatPush(q.batches, q.waiting);
    if e.Add? {
      assert Flat(q.batches) + (q.waiting + e.msgs) == Flat(q.batches) + q.waiting + e.msgs;
    }
  }

  /** Nothing is lost, repeated or reordered. */
  lemma {:induction false} NothingLost(events: seq<Event>)
    ensures Flat(Run(events).batches) + Run(events).waiting == Given(events)
  {
    if events != [] {
      NothingLost(events[..|events| - 1]);
      AfterKeepsAll(Run(events[..|events| - 1]), events[|events| - 1]);
    }
  }

  lemma {:induction false} NoEmptyBatch(events: seq<Event>)
    ensures forall b | b in Run(events).batches :: b != []
  {
    if events != [] { NoEmptyBatch(events[..|events| - 1]); }
  }

  /** What was handed over never changes, whatever happens later. */
  lemma {:induction false} BatchesAreFinal(events: seq<Event>, later: seq<Event>)
    ensures Run(events).batches <= Run(events + later).batches
    ensures Run(events).stopped ==> Run(events + later).stopped
  {
    if later == [] {
      assert events + later == events;
    } else {
      BatchesAreFinal(events, later[..|later| - 1]);
      assert (events + later)[..|events + later| - 1] == events + later[..|later| - 1];
    }
  }

  function Start(batches: seq<seq<Msg>>, i: nat): nat
    requires i <= |batches|
  {
    |Flat(batches[..i])|
  }

  /** Message number `k` is cell `j` of batch `i`. */
  predicate Holds(batches: seq<seq<Msg>>, k: nat, i: nat, j: nat) {
    i < |batches| && j < |batches[i]| && Start(batches, i) + j == k
  }

  lemma {:induction false} StartsGrow(batches: seq<seq<Msg>>, i: nat, j: nat)
    requires i < j <= |batches|
    ensures Start(batches, i) + |batches[i]| <= Start(batches, j)
    decreases j
  {
    assert batches[..j][..j - 1] == batches[..j - 1];
    if i < j - 1 { StartsGrow(batches, i, j - 1); }
  }

  lemma {:induction false} CellIsMessage(batches: seq<seq<Msg>>, k: nat, i: nat, j: nat)
    requires Holds(batches, k, i, j)
    ensures k < |Flat(batches)| && batches[i][j] == Flat(batches)[k]
  {
    var front := batches[..|batches| - 1];
    if i < |front| {
      assert front[..i] == batches[..i];
      CellIsMessage(front, k, i, j);
    }
  }

  lemma {:induction false} CellExists(batches: seq<seq<Msg>>, k: nat) returns (i: nat, j: nat)
    requires k < |Flat(batches)|
    ensures Holds(batches, k, i, j)
  {
    var front := batches[..|batches| - 1];
    if k < |Flat(front)| {
      i, j := CellExists(front, k);
      assert front[..i] == batches[..i];
    } else {
      i, j := |front|, k - |Flat(front)|;
    }
  }

  /** Every added message is in exactly one cell of one batch, or still queued in its place. */
  lemma EachInOneBatch(events: seq<Event>, k: nat) returns (i: nat, j: nat)
    requires k < |Given(events)|
    ensures Flat(Run(events).batches) + Run(events).waiting == Given(events)
    ensures var q := Run(events);
      if k < |Flat(q.batches)| then
        && Holds(q.batches, k, i, j) && q.batches[i][j] == Given(events)[k]
        && forall i': nat, j': nat | Holds(q.batches, k, i', j') :: i' == i && j' == j
      else
        && q.waiting[k - |Flat(q.batches)|] == Given(events)[k]
        && forall i': nat, j': nat :: !Holds(q.batches, k, i', j')
  {
    var q := Run(events);
    NothingLost(events);
    forall i': nat, j': nat | Holds(q.batches, k, i', j') ensures k < |Flat(q.batches)| {
      CellIsMessage(q.batches, k, i', j');
    }
    if k < |Flat(q.batches)| {
      i, j := CellExists(q.batches, k);
      CellIsMessage(q.batches, k, i, j);
      forall i': nat, j': nat | Holds(q.batches, k, i', j') ensures i' == i && j' == j {
        if i < i' { StartsGrow(q.batches, i, i'); }
        if i' < i { StartsGrow(q.batches, i', i); }
      }
    } else {
      i, j := 0, 0;
    }
  }

  lemma RunPush(events: seq<Event>, e: Event)
    ensures Run(events + [e]) == After(Run(events), e)
    ensures Given(events + [e]) == Given(events) + if e.Add? then e.msgs else []
  {
    assert (events + [e])[..|events|] == events;
  }

  /** Every message of `later` is followed by a tick. */
  predicate AllTicked(later: seq<Event>) {
    forall i | 0 <= i < |later| && later[i].Add? && later[i].msgs != [] :: exists j :: i < j < |later| && later[j].Tick?
  }

  lemma AllTickedPush(later: seq<Event>, e: Event)
    ensures AllTicked(later + [e]) <==> e.Tick? || (AllTicked(later) && !(e.Add? && e.msgs != []))
  {
    var all := later + [e];
    if AllTicked(all) && !e.Tick? {
      forall i | 0 <= i < |later| && later[i].Add? && later[i].msgs != []
        ensures exists j :: i < j < |later| && later[j].Tick?
      {
        assert all[i] == later[i];
        var j :| i < j < |all| && all[j].Tick?;
        assert later[j].Tick?;
      }
      assert all[|later|] == e;
    }
    if e.Tick? { assert all[|later|].Tick?; }
    if AllTicked(later) && !(e.Add? && e.msgs != []) {
      forall i | 0 <= i < |all| && all[i].Add? && all[i].msgs != []
        ensures exists j :: i < j < |all| && all[j].Tick?
      {
        var j :| i < j < |later| && later[j].Tick?;
        assert all[j].Tick?;
      }
    }
  }

  lemma RunSnoc(events: seq<Event>, later: seq<Event>)
    requires later != []
    ensures Run(events + later) == After(Run(events + later[..|later| - 1]), later[|later| - 1])
  {
    assert (events + later)[..|events + later| - 1] == events + later[..|later| - 1];
  }

  lemma AllTickedSnoc(later: seq<Event>)
    requires later != []
    ensures var last := later[|later| - 1];
      AllTicked(later) <==> last.Tick? || (AllTicked(later[..|later| - 1]) && !(last.Add? && last.msgs != []))
  {
    AllTickedPush(later[..|later| - 1], later[|later| - 1]);
    assert later == later[..|later| - 1] + [later[|later| - 1]];
  }

  lemma WaitingAfter(q: Queue, e: Event)
    requires q.stopped
    ensures After(q, e).stopped
    ensures After(q, e).waiting == [] <==> e.Tick? || (q.waiting == [] && !(e.Add? && e.msgs != []))
  { }

  /** Once stopped, only ticks empty the queue. */
  lemma {:induction false} QueueEmptyIff(events: seq<Event>, later: seq<Event>)
    requires Run(events).stopped && Run(events).waiting == []
    ensures Run(events + later).stopped
    ensures Run(events + later).waiting == [] <==> AllTicked(later)
  {
    if later == [] {
      assert events + later == events;
    } else {
      var front, last := later[..|later| - 1], later[|later| - 1];
      QueueEmptyIff(events, front);
      RunSnoc(events, later);
      WaitingAfter(Run(events + front), last);
      AllTickedSnoc(later);
    }
  }

  lemma StopEmpties(events: seq<Event>)
    requires !Run(events).stopped
    ensures Run(events + [Stop]).waiting == [] && Run(events + [Stop]).stopped
    ensures Flat(Run(events + [Stop]).batches) == Given(events)
  {
    RunPush(events, Stop);
    NothingLost(events + [Stop]);
  }

  /** The first Stop hands over all that was added before it; with any later events, all
      that was ever added is handed over if and only if a tick follows each message that
      was added after it. */
  lemma StopFlushesIff(events: seq<Event>, later: seq<Event>)
    requires !Run(events).stopped
    ensures Flat(Run(events + [Stop]).batches) == Given(events)
    ensures Flat(Run(events + [Stop] + later).batches) == Given(events + [Stop] + later) <==> AllTicked(later)
  {
    StopEmpties(events);
    QueueEmptyIff(events + [Stop], later);
    NothingLost(events + [Stop] + later);
  }

  /** Such a run: a message added after Stop stays in the queue. */
  lemma LateMessageWaits(m: Msg)
    ensures var q := Run([Stop, Add([m])]); q.waiting == [m] && q.batches == []
  {
    assert [Stop, Add([m])][..1] == [Stop] && [Stop][..0] == [];
  }
}
