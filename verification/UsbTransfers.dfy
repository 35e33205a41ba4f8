/**
  The life of USB transfers. An operation allocates a transfer, queues and submits it; the event thread
  completes it by submitting it again or by posting its result to the strand; the strand deletes the
  transfer and runs the operation's handler. All interleavings of these steps are considered.
  */
module UsbTransfers {

  import opened Options

  /**
    A transfer in memory: its address, the operation it was made for, and the size of that operation's buffers.
    The queue sees only the address.
    */
  datatype Transfer = Transfer(ptr: nat, op: nat, size: nat)

  type Slots = seq<Option<Transfer>>

  // ----- the queue of transfers -----

  /** The transfers in the slots that are not null, in order. */
  function Live(q: Slots): seq<Transfer> {
    if q == [] then [] else if q[0].Some? then [q[0].value] + Live(q[1..]) else Live(q[1..])
  }

  function Nulled(q: Slots, ptr: nat): (r: Slots)
    ensures |r| == |q|
    ensures forall i {:trigger r[i]} :: 0 <= i < |q| ==> r[i] == if q[i].Some? && q[i].value.ptr == ptr then None else q[i]
  {
    seq(|q|, i requires 0 <= i < |q| => if q[i].Some? && q[i].value.ptr == ptr then None else q[i])
  }

  function Trimmed(q: Slots): Slots {
    if q == [] || q[0].Some? then q else Trimmed(q[1..])
  }

  function Deleted(q: Slots, ptr: nat): Slots { Trimmed(Nulled(q, ptr)) }

  function Without(ts: seq<Transfer>, ptr: nat): seq<Transfer> {
    if ts == [] then []
    else if ts[0].ptr == ptr then Without(ts[1..], ptr) else [ts[0]] + Without(ts[1..], ptr)
  }

  class TransferQueue {
    var transfers: Slots

    constructor ()
      ensures transfers == []
    {
      transfers := [];
    }

    method NewTransfer(t: Transfer) returns (ptr: nat)
      modifies this
      ensures transfers == old(transfers) + [Some(t)] && ptr == t.ptr
    {
      transfers := transfers + [Some(t)];
      ptr := t.ptr;
    }

    /** Nulls every slot that holds the address, then drops the null slots at the front. */
    method DeleteTransfer(ptr: nat)
      modifies this
      ensures transfers == Deleted(old(transfers), ptr)
    {
      for i := 0 to |transfers|
        invariant |transfers| == |old(transfers)|
        invariant forall k :: 0 <= k < i ==> transfers[k] == Nulled(old(transfers), ptr)[k]
        invariant forall k :: i <= k < |transfers| ==> transfers[k] == old(transfers)[k]
      {
        if transfers[i].Some? {
          if ptr == transfers[i].value.ptr {
            transfers := transfers[i := None];
          }
        }
      }
      assert transfers == Nulled(old(transfers), ptr);
      while |transfers| != 0
        invariant Trimmed(transfers) == Deleted(old(transfers), ptr)
        decreases |transfers|
      {
        if transfers[0].None? {
          transfers := transfers[1..];
        } else {
          break;
        }
      }
    }

    /** The transfers that a cancellation is requested for. */
    method Cancel() returns (requested: seq<nat>)
      ensures |requested| == |Live(transfers)|
      ensures forall i :: 0 <= i < |requested| ==> requested[i] == Live(transfers)[i].ptr
    {
      requested := [];
      for i := 0 to |transfers|
        invariant |requested| == |Live(transfers[..i])|
        invariant forall k :: 0 <= k < |requested| ==> requested[k] == Live(transfers[..i])[k].ptr
      {
        assert transfers[..i + 1] == transfers[..i] + [transfers[i]];
        LiveSnoc(transfers[..i], transfers[i]);
        if transfers[i].Some? {
          requested := requested + [transfers[i].value.ptr];
        }
      }
      assert transfers[..|transfers|] == transfers;
    }
  }

  lemma {:induction false} LiveSnoc(q: Slots, t: Option<Transfer>)
    ensures Live(q + [t]) == if t.Some? then Live(q) + [t.value] else Live(q)
  {
    if q == [] {
      assert [] + [t] == [t] && [t][1..] == [];
    } else {
      assert (q + [t])[1..] == q[1..] + [t];
      LiveSnoc(q[1..], t);
    }
  }

  lemma {:induction false} LiveTrimmed(q: Slots)
    ensures Live(Trimmed(q)) == Live(q)
    ensures Trimmed(q) == [] || Trimmed(q)[0].Some?
  {
    if q != [] && q[0].None? { LiveTrimmed(q[1..]); }
  }

  lemma {:induction false} LiveNulled(q: Slots, ptr: nat)
    ensures Live(Nulled(q, ptr)) == Without(Live(q), ptr)
  {
    if q != [] {
      LiveNulled(q[1..], ptr);
      assert Nulled(q, ptr)[1..] == Nulled(q[1..], ptr);
      if q[0].Some? {
        assert Live(q)[1..] == Live(q[1..]);
      }
    }
  }

  lemma LiveDeleted(q: Slots, ptr: nat)
    ensures Live(Deleted(q, ptr)) == Without(Live(q), ptr)
    ensures Deleted(q, ptr) == [] || Deleted(q, ptr)[0].Some?
  {
    LiveNulled(q, ptr);
    LiveTrimmed(Nulled(q, ptr));
  }

  // ----- completion -----

  datatype Status = Completed | Cancelled | NoDevice | TimedOut | Error | Overflow | Stall | Unknown

  datatype ErrorCode = Success | OperationCanceled | BadFileDescriptor | TimedOutError | IoError | ValueTooLarge

  function ErrorOf(status: Status): ErrorCode {
    match status
    case Completed => Success
    case Cancelled => OperationCanceled
    case NoDevice => BadFileDescriptor
    case TimedOut => TimedOutError
    case Error => IoError
    case Overflow => ValueTooLarge
    case Stall => IoError
    case Unknown => IoError
  }

  /** A result on its way to the handler. */
  datatype Posted = Posted(transfer: Transfer, ec: ErrorCode, bytes: nat)

  function Result(t: Transfer, status: Status, length: nat): Posted {
    Posted(t, ErrorOf(status), if length < t.size then length else t.size)
  }

  // ----- the system -----

  /**
    flying: the transfers submitted to the library, which hands each back with its own operation's context.
    posted: the strand's queue. handled: the results that handlers were run with, in order.
    lost: the transfers whose submission or resubmission was refused. started: the number of operations.
    */
  datatype System = System(queue: Slots, flying: set<Transfer>, posted: seq<Posted>, handled: seq<Posted>,
                           lost: set<Transfer>, started: nat)

  const INITIAL := System([], {}, [], [], {}, 0)

  datatype Event =
    | Submit(ptr: nat, size: nat, accepted: bool)
    | Complete(transfer: Transfer, status: Status, length: nat, accepted: bool)
    | Strand
    | Cancel

  /** Steps that can happen: memory is handed out only when free, and only submitted transfers complete. */
  predicate Enabled(s: System, e: Event) {
    match e
    case Submit(ptr, _, _) => forall t :: t in Live(s.queue) ==> t.ptr != ptr
    case Complete(t, _, _, _) => t in s.flying
    case Strand => s.posted != []
    case Cancel => true
  }

  function Next(s: System, e: Event): System
    requires Enabled(s, e)
  {
    match e
    case Submit(ptr, size, accepted) =>
      var t := Transfer(ptr, s.started, size);
      var r := s.(queue := s.queue + [Some(t)], started := s.started + 1);
      if accepted then r.(flying := s.flying + {t}) else r.(lost := s.lost + {t})
    case Complete(t, status, length, accepted) =>
      if ErrorOf(status) == Success && length == 0 then
        if accepted then s else s.(flying := s.flying - {t}, lost := s.lost + {t})
      else
        s.(flying := s.flying - {t}, posted := s.posted + [Result(t, status, length)])
    case Strand =>
      var p := s.posted[0];
      s.(queue := Deleted(s.queue, p.transfer.ptr), posted := s.posted[1..], handled := s.handled + [p])
    case Cancel => s
  }

  ghost predicate IsRun(s: System, es: seq<Event>)
    decreases |es|
  {
    es == [] || (Enabled(s, es[0]) && IsRun(Next(s, es[0]), es[1..]))
  }

  function After(s: System, es: seq<Event>): System
    requires IsRun(s, es)
    decreases |es|
  {
    if es == [] then s else After(Next(s, es[0]), es[1..])
  }

  // ----- the invariant -----

  function Members<T>(s: seq<T>): set<T> { set t | t in s }

  function Transfers(ps: seq<Posted>): (r: seq<Transfer>)
    ensures |r| == |ps|
    ensures forall i {:trigger r[i]} :: 0 <= i < |r| ==> r[i] == ps[i].transfer
  {
    seq(|ps|, i requires 0 <= i < |ps| => ps[i].transfer)
  }

  function Ops(ps: seq<Posted>): (r: seq<nat>)
    ensures |r| == |ps|
    ensures forall i {:trigger r[i]} :: 0 <= i < |r| ==> r[i] == ps[i].transfer.op
  {
    seq(|ps|, i requires 0 <= i < |ps| => ps[i].transfer.op)
  }

  ghost predicate Distinct<T(!new)>(s: seq<T>) { forall i, j :: 0 <= i < j < |s| ==> s[i] != s[j] }

  /** Addresses in use are distinct, and operations are queued in the order they were started. */
  ghost predicate InOrder(ts: seq<Transfer>) {
    forall i, j :: 0 <= i < j < |ts| ==> ts[i].ptr != ts[j].ptr && ts[i].op < ts[j].op
  }

  /** A transfer in memory is submitted, on its way to its handler, or lost, and only one of these. */
  ghost predicate Phases(live: set<Transfer>, flying: set<Transfer>, posted: seq<Transfer>, lost: set<Transfer>) {
    && live == flying + Members(posted) + lost
    && flying !! Members(posted) && flying !! lost && Members(posted) !! lost
    && Distinct(posted)
  }

  /** Every started operation is in memory or has been handled; it is handled at most once, and not both. */
  ghost predicate Ledger(live: seq<Transfer>, handled: seq<nat>, started: nat) {
    && Distinct(handled)
    && (forall o :: o in handled ==> o < started)
    && (forall t :: t in live ==> t.op < started && t.op !in handled)
    && (forall o {:trigger o in handled} :: 0 <= o < started && o !in handled ==> exists t :: t in live && t.op == o)
  }

  ghost predicate Inv(s: System) {
    var live := Live(s.queue);
    && (s.queue == [] || s.queue[0].Some?)
    && InOrder(live)
    && Phases(Members(live), s.flying, Transfers(s.posted), s.lost)
    && Ledger(live, Ops(s.handled), s.started)
  }

  // ----- the invariant holds in every reachable state -----

  lemma {:induction false} WithoutMembers(ts: seq<Transfer>, ptr: nat)
    ensures forall t :: t in Without(ts, ptr) <==> t in ts && t.ptr != ptr
  {
    if ts != [] {
      WithoutMembers(ts[1..], ptr);
      assert forall t :: t in ts <==> t == ts[0] || t in ts[1..];
    }
  }

  lemma {:induction false} WithoutInOrder(ts: seq<Transfer>, ptr: nat)
    requires InOrder(ts)
    ensures InOrder(Without(ts, ptr))
  {
    if ts != [] {
      WithoutInOrder(ts[1..], ptr);
      WithoutMembers(ts[1..], ptr);
      var w := Without(ts[1..], ptr);
      forall j | 0 <= j < |w| ensures ts[0].ptr != w[j].ptr && ts[0].op < w[j].op {
        assert w[j] in ts[1..];
      }
    }
  }

  /** In order, an address or an operation identifies the transfer. */
  lemma Identified(ts: seq<Transfer>, t: Transfer, u: Transfer)
    requires InOrder(ts) && t in ts && u in ts && (t.ptr == u.ptr || t.op == u.op)
    ensures t == u
  {
    var i :| 0 <= i < |ts| && ts[i] == t;
    var j :| 0 <= j < |ts| && ts[j] == u;
  }

  lemma MembersSnoc<T>(s: seq<T>, t: T)
    ensures Members(s + [t]) == Members(s) + {t}
  {}

  lemma MembersTail<T(!new)>(s: seq<T>)
    requires s != [] && Distinct(s)
    ensures Members(s[1..]) == Members(s) - {s[0]} && Distinct(s[1..])
  {
    forall t | t in s && t != s[0] ensures t in s[1..] {
      var i :| 0 <= i < |s| && s[i] == t;
      assert s[1..][i - 1] == t;
    }
  }

  lemma InOrderSnoc(ts: seq<Transfer>, t: Transfer)
    requires InOrder(ts)
    requires forall u :: u in ts ==> u.ptr != t.ptr && u.op < t.op
    ensures InOrder(ts + [t])
  {}

  lemma PhasesSubmit(live: set<Transfer>, flying: set<Transfer>, posted: seq<Transfer>, lost: set<Transfer>, t: Transfer)
    requires Phases(live, flying, posted, lost) && t !in live
    ensures Phases(live + {t}, flying + {t}, posted, lost) && Phases(live + {t}, flying, posted, lost + {t})
  {}

  lemma SubmitKeeps(s: System, ptr: nat, size: nat, accepted: bool)
    requires Inv(s) && Enabled(s, Submit(ptr, size, accepted))
    ensures Inv(Next(s, Submit(ptr, size, accepted)))
  {
    var live, t := Live(s.queue), Transfer(ptr, s.started, size);
    assert (s.queue + [Some(t)])[0].Some?;
    hide Live, Distinct, InOrder, Phases, Ops, Transfers;
    assert forall u :: u in live ==> u.op < t.op;
    hide Ledger;
    LiveSnoc(s.queue, Some(t));
    InOrderSnoc(live, t);
    LedgerSubmit(live, Ops(s.handled), s.started, t);
    MembersSnoc(live, t);
    assert t !in Members(live);
    hide Members;
    PhasesSubmit(Members(live), s.flying, Transfers(s.posted), s.lost, t);
  }

  lemma LedgerSubmit(live: seq<Transfer>, handled: seq<nat>, started: nat, t: Transfer)
    requires Ledger(live, handled, started) && t.op == started
    ensures Ledger(live + [t], handled, started + 1)
  {
    forall o | 0 <= o < started + 1 && o !in handled ensures exists u :: u in live + [t] && u.op == o {
      if o == started {
        assert t in live + [t];
      } else {
        var u :| u in live && u.op == o;
        assert u in live + [t];
      }
    }
  }

  lemma CompleteKeeps(s: System, t: Transfer, status: Status, length: nat, accepted: bool)
    requires Inv(s) && Enabled(s, Complete(t, status, length, accepted))
    ensures Inv(Next(s, Complete(t, status, length, accepted)))
  {
    hide Ledger, Live, InOrder;
    var p := Result(t, status, length);
    assert Transfers(s.posted + [p]) == Transfers(s.posted) + [t];
    MembersSnoc(Transfers(s.posted), t);
  }

  lemma StrandKeeps(s: System)
    requires Inv(s) && Enabled(s, Strand)
    ensures Inv(Next(s, Strand))
  {
    var live, t := Live(s.queue), s.posted[0].transfer;
    hide Live, Deleted;
    LiveDeleted(s.queue, t.ptr);
    assert Transfers(s.posted)[0] == t;
    assert t in live by { assert t in Members(Transfers(s.posted)) && t in Members(live); }
    WithoutInOrder(live, t.ptr);
    WithoutOne(live, t);
    assert Transfers(s.posted)[1..] == Transfers(s.posted[1..]);
    MembersTail(Transfers(s.posted));
    assert Ops(s.handled + [s.posted[0]]) == Ops(s.handled) + [t.op];
    LedgerStrand(live, Ops(s.handled), s.started, t);
    hide Ledger, InOrder, Distinct;
  }

  /** Deleting by address removes just the one transfer that has it. */
  lemma WithoutOne(live: seq<Transfer>, t: Transfer)
    requires InOrder(live) && t in live
    ensures Members(Without(live, t.ptr)) == Members(live) - {t}
  {
    WithoutMembers(live, t.ptr);
    forall u | u in live && u.ptr == t.ptr ensures u == t { Identified(live, u, t); }
  }

  lemma LedgerStrand(live: seq<Transfer>, handled: seq<nat>, started: nat, t: Transfer)
    requires Ledger(live, handled, started) && InOrder(live) && t in live
    ensures Ledger(Without(live, t.ptr), handled + [t.op], started)
  {
    WithoutMembers(live, t.ptr);
    forall u | u in live && u.op == t.op ensures u == t { Identified(live, u, t); }
    forall o | 0 <= o < started && o !in handled + [t.op]
      ensures exists u :: u in Without(live, t.ptr) && u.op == o
    {
      assert o !in handled && o != t.op;
      var u :| u in live && u.op == o;
      if u.ptr == t.ptr { Identified(live, u, t); }
      assert u in Without(live, t.ptr);
    }
  }

  lemma NextKeeps(s: System, e: Event)
    requires Inv(s) && Enabled(s, e)
    ensures Inv(Next(s, e))
  {
    hide Inv;
    match e
    case Submit(ptr, size, accepted) => SubmitKeeps(s, ptr, size, accepted);
    case Complete(t, status, length, accepted) => CompleteKeeps(s, t, status, length, accepted);
    case Strand => StrandKeeps(s);
    case Cancel =>
  }

  lemma {:induction false} RunKeeps(s: System, es: seq<Event>)
    requires Inv(s) && IsRun(s, es)
    ensures Inv(After(s, es))
    decreases |es|
  {
    hide Inv, Next, Enabled;
    if es != [] {
      NextKeeps(s, es[0]);
      RunKeeps(Next(s, es[0]), es[1..]);
    }
  }

  // ----- what it means -----

  /** Every operation's handler runs at most once, and the queue holds exactly the unhandled ones, in order. */
  lemma Lifecycle(es: seq<Event>)
    requires IsRun(INITIAL, es)
    ensures var s := After(INITIAL, es);
            var live := Live(s.queue);
            && Distinct(Ops(s.handled))
            && (s.queue == [] || s.queue[0].Some?)
            && InOrder(live)
            && (forall o :: (exists t :: t in live && t.op == o) <==> 0 <= o < s.started && o !in Ops(s.handled))
            && (forall t :: t in s.flying || t in Transfers(s.posted) ==> t in live)
  {
    RunKeeps(INITIAL, es);
    var s := After(INITIAL, es);
    forall t | t in s.flying || t in Transfers(s.posted) ensures t in Live(s.queue) {
      assert t in Members(Live(s.queue));
    }
  }

  /** Memory is freed only in the strand step that runs its handler, and never while the transfer is in flight. */
  lemma FreedOnlyWhenHandled(s: System, e: Event, t: Transfer)
    requires Inv(s) && Enabled(s, e)
    requires t in Live(s.queue) && t !in Live(Next(s, e).queue)
    ensures e == Strand && s.posted[0].transfer == t && t !in s.flying
    ensures Next(s, e).handled == s.handled + [s.posted[0]]
  {
    var live := Live(s.queue);
    match e
    case Submit(ptr, size, accepted) => LiveSnoc(s.queue, Some(Transfer(ptr, s.started, size)));
    case Complete(u, _, _, _) =>
    case Cancel =>
    case Strand =>
      var u := s.posted[0].transfer;
      LiveDeleted(s.queue, u.ptr);
      WithoutMembers(live, u.ptr);
      assert Transfers(s.posted)[0] == u && u in Members(Transfers(s.posted)) && u in Members(live);
      Identified(live, t, u);
  }

  /** The results that the completions of a run hand to the strand. */
  function Results(s: System, es: seq<Event>): seq<Posted>
    requires IsRun(s, es)
    decreases |es|
  {
    if es == [] then []
    else
      var e := es[0];
      if e.Complete? && (ErrorOf(e.status) != Success || e.length != 0)
      then [Result(e.transfer, e.status, e.length)] + Results(Next(s, e), es[1..])
      else Results(Next(s, e), es[1..])
  }

  /** Handlers run in the order of completion, each with its own result; a resubmission delivers nothing. */
  lemma {:induction false} DeliveredInOrder(s: System, es: seq<Event>)
    requires IsRun(s, es)
    ensures After(s, es).handled + After(s, es).posted == s.handled + s.posted + Results(s, es)
    decreases |es|
  {
    hide Deleted;
    if es != [] {
      DeliveredInOrder(Next(s, es[0]), es[1..]);
    }
  }

  /** A result is that of a completion: its transfer, its error code, and as many bytes as came and fit. */
  predicate ResultOf(p: Posted, e: Event) {
    && e.Complete? && p.transfer == e.transfer
    && p.bytes <= e.length && p.bytes <= e.transfer.size && (p.bytes == e.length || p.bytes == e.transfer.size)
    && (p.ec == Success <==> e.status == Completed)
    && (p.ec == OperationCanceled <==> e.status == Cancelled)
    && (p.ec == BadFileDescriptor <==> e.status == NoDevice)
    && (p.ec == TimedOutError <==> e.status == TimedOut)
    && (p.ec == ValueTooLarge <==> e.status == Overflow)
    && (p.ec == IoError <==> e.status in {Error, Stall, Unknown})
  }

  /** The completions that end an operation: all but the successful ones without a byte. */
  function Ended(es: seq<Event>): seq<Event> {
    if es == [] then []
    else (if es[0].Complete? && !(es[0].status == Completed && es[0].length == 0) then [es[0]] else []) + Ended(es[1..])
  }

  ghost predicate ResultsOf(ps: seq<Posted>, es: seq<Event>) {
    |ps| == |es| && forall i :: 0 <= i < |ps| ==> ResultOf(ps[i], es[i])
  }

  lemma {:induction false} ResultsAreEnded(s: System, es: seq<Event>)
    requires IsRun(s, es)
    ensures ResultsOf(Results(s, es), Ended(es))
    decreases |es|
  {
    hide Next, Enabled;
    if es != [] { ResultsAreEnded(Next(s, es[0]), es[1..]); }
  }

  /**
    What handlers are run with, or are about to be: behind what there was before, one result for each completion that
    ends an operation, in their order.
    */
  lemma DeliveredExactly(s: System, es: seq<Event>)
    requires IsRun(s, es)
    ensures var before, after := s.handled + s.posted, After(s, es).handled + After(s, es).posted;
            before <= after && ResultsOf(after[|before|..], Ended(es))
  {
    DeliveredInOrder(s, es);
    ResultsAreEnded(s, es);
    var before := s.handled + s.posted;
    assert (before + Results(s, es))[|before|..] == Results(s, es);
  }

  /** The library does not refuse: neither a submission, nor the resubmission of a transfer that brought no bytes. */
  predicate NotRefused(e: Event) {
    match e
    case Submit(_, _, accepted) => accepted
    case Complete(_, status, length, accepted) => ErrorOf(status) == Success && length == 0 ==> accepted
    case Strand => true
    case Cancel => true
  }

  predicate NoneRefused(es: seq<Event>) { forall i :: 0 <= i < |es| ==> NotRefused(es[i]) }

  lemma {:induction false} LostExactly(s: System, es: seq<Event>)
    requires IsRun(s, es)
    ensures After(s, es).lost == {} <==> s.lost == {} && NoneRefused(es)
    decreases |es|
  {
    hide Deleted;
    if es != [] {
      hide ErrorOf;
      LostExactly(Next(s, es[0]), es[1..]);
      assert forall i :: 0 < i < |es| ==> es[i] == es[1..][i - 1];
      assert NoneRefused(es) <==> NotRefused(es[0]) && NoneRefused(es[1..]);
    }
  }

  /**
    When nothing is in flight or posted, all memory is freed and every operation handled, exactly when the library
    refused nothing.
    */
  lemma QuiescentIff(es: seq<Event>)
    requires IsRun(INITIAL, es)
    requires After(INITIAL, es).flying == {} && After(INITIAL, es).posted == []
    ensures var s := After(INITIAL, es);
            && (NoneRefused(es) <==> s.queue == [])
            && (NoneRefused(es) <==> forall o: nat :: o < s.started ==> o in Ops(s.handled))
  {
    hide NoneRefused;
    RunKeeps(INITIAL, es);
    LostExactly(INITIAL, es);
    var s := After(INITIAL, es);
    var live := Live(s.queue);
    assert Transfers(s.posted) == [];
    assert Members(live) == s.lost;
    if s.queue == [] {
      assert live == [];
    } else {
      assert s.queue[0].value in Members(live);
    }
    if s.lost != {} {
      var t :| t in s.lost;
      assert t in Members(live) && t.op < s.started && t.op !in Ops(s.handled);
    } else {
      NothingLeft(Ops(s.handled), s.started);
    }
  }

  lemma NothingLeft(handled: seq<nat>, started: nat)
    requires Ledger([], handled, started)
    ensures forall o: nat :: o < started ==> o in handled
  {}

  // ----- cancelling -----

  /** After cancellation transfers end, by whatever status, and the strand runs; nothing is submitted again. */
  predicate Draining(e: Event) { e.Strand? || (e.Complete? && !(ErrorOf(e.status) == Success && e.length == 0)) }

  /**
    Every draining run ends: each step uses up one of a fixed number, and nothing is left in flight or posted exactly
    when that many steps have been taken.
    */
  lemma {:induction false} DrainExactly(s: System, es: seq<Event>)
    requires IsRun(s, es) && forall i :: 0 <= i < |es| ==> Draining(es[i])
    ensures |es| + 2 * |After(s, es).flying| + |After(s, es).posted| == 2 * |s.flying| + |s.posted|
    ensures After(s, es).flying == {} && After(s, es).posted == [] <==> |es| == 2 * |s.flying| + |s.posted|
    ensures After(s, es).lost == s.lost && After(s, es).started == s.started
    decreases |es|
  {
    hide Deleted;
    if es != [] {
      assert Draining(es[0]);
      DrainExactly(Next(s, es[0]), es[1..]);
    }
  }

  /** And as long as something is left, a draining step can be taken. */
  lemma DrainProgress(s: System) returns (e: Event)
    requires s.flying != {} || s.posted != []
    ensures Enabled(s, e) && Draining(e)
  {
    if s.posted != [] {
      e := Strand;
    } else {
      var t :| t in s.flying;
      e := Complete(t, Cancelled, 0, false);
    }
  }

  /** So from every state a draining run leads to nothing in flight and nothing posted. */
  lemma {:induction false} Drain(s: System) returns (es: seq<Event>)
    ensures IsRun(s, es) && (forall i :: 0 <= i < |es| ==> Draining(es[i]))
    ensures After(s, es).flying == {} && After(s, es).posted == []
    decreases 2 * |s.flying| + |s.posted|
  {
    es := [];
    if s.flying != {} || s.posted != [] {
      hide Deleted;
      var e := DrainProgress(s);
      assert [e][1..] == [];
      DrainExactly(s, [e]);
      var rest := Drain(Next(s, e));
      es := [e] + rest;
      assert es[1..] == rest;
    }
  }
}
