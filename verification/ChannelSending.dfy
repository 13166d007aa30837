/** From what processes ask to be sent to what is dispatched. */
module ChannelSending {
  import opened Basics
  import opened Wire
  import opened Channel
  import opened ChannelInvariant
  import opened ChannelAccounts
  import opened ChannelTheorems

  /** What a sender hands over. */
  datatype Order = Order(kind: int, body: seq<byte>)

  /** What process w has asked for in a run, in order. */
  function Orders(actions: seq<Action>, w: nat): seq<Order>
    decreases actions
  {
    if actions == [] then []
    else
      var a := actions[0];
      (if (a.DoSend? || a.DoRefuse?) && a.w == w then [Order(a.kind, a.body)] else []) + Orders(actions[1..], w)
  }

  function OrderOf(e: Entry): Order {
    Order(e.kind, e.body)
  }

  function OrdersOf(es: seq<Entry>): seq<Order> {
    seq(|es|, i requires 0 <= i < |es| => OrderOf(es[i]))
  }

  ghost function Accepted(s: State, w: nat): seq<Entry>
    requires w in s.writers
  {
    s.writers[w].ledger.accepted
  }

  /** Steps other than sending accept nothing, and no process comes or goes. */
  lemma StepAcceptsNothing(s: State, a: Action)
    requires Enabled(s, a) && !a.DoSend? && !a.DoRefuse?
    ensures Apply(s, a).writers.Keys == s.writers.Keys
    ensures forall w | w in s.writers :: Accepted(Apply(s, a), w) == Accepted(s, w)
  {
    match a
    case StepReader => ReaderMovesNoEntry(s);
    case StepWriter(v) =>
      if s.writers[v].pc.Copying? { CopyAcceptsNothing(s, v); } else { WriterMovesNoEntry(s, v); }
    case _ =>
  }

  lemma CopyAcceptsNothing(s: State, w: nat)
    requires w in s.writers && s.writers[w].pc.Copying?
    ensures var s' := CopyOn(s, w);
            && w in s'.writers && s'.writers == s.writers[w := s'.writers[w]]
            && s'.writers[w].ledger.accepted == s.writers[w].ledger.accepted
  {
  }

  lemma OrdersOfMore(es: seq<Entry>, e: Entry)
    ensures OrdersOf(es + [e]) == OrdersOf(es) + [OrderOf(e)]
  {
  }

  /** Sending, whether the queue can be opened or not, accepts what was asked for. */
  lemma SendAccepts(s: State, v: nat, kind: int, body: seq<byte>, w: nat)
    requires v in s.writers && w in s.writers
    ensures var asked := if v == w then [Order(kind, body)] else [];
            forall s' | s' == Send(s, v, kind, body) || s' == Refuse(s, v, kind, body) ::
              s'.writers.Keys == s.writers.Keys && OrdersOf(Accepted(s', w)) == OrdersOf(Accepted(s, w)) + asked
  {
    OrdersOfMore(Accepted(s, v), Entry(|Accepted(s, v)|, kind, body));
    assert OrdersOf(Accepted(s, w)) + [] == OrdersOf(Accepted(s, w));
  }

  lemma StepAccepts(s: State, a: Action, w: nat)
    requires Enabled(s, a) && w in s.writers
    ensures Apply(s, a).writers.Keys == s.writers.Keys
    ensures OrdersOf(Accepted(Apply(s, a), w)) == OrdersOf(Accepted(s, w)) + Orders([a], w)
  {
    assert Orders([a][1..], w) == [];
    match a
    case DoSend(v, kind, body) => SendAccepts(s, v, kind, body, w);
    case DoRefuse(v, kind, body) => SendAccepts(s, v, kind, body, w);
    case _ =>
      StepAcceptsNothing(s, a);
      assert OrdersOf(Accepted(s, w)) + [] == OrdersOf(Accepted(s, w));
  }

  /** What is accepted from a process in a run is what it asked for in the run, in order. */
  lemma {:induction false} AcceptedIsAsked(s: State, actions: seq<Action>, w: nat)
    requires IsRun(s, actions) && w in s.writers
    ensures Exec(s, actions).writers.Keys == s.writers.Keys
    ensures OrdersOf(Accepted(Exec(s, actions), w)) == OrdersOf(Accepted(s, w)) + Orders(actions, w)
    decreases actions
  {
    if actions != [] {
      var a, s' := actions[0], Apply(s, actions[0]);
      StepAccepts(s, a, w);
      AcceptedIsAsked(s', actions[1..], w);
      assert [a][1..] == [];
      assert Orders(actions, w) == Orders([a], w) + Orders(actions[1..], w);
      Regroup(OrdersOf(Accepted(s, w)), Orders([a], w), Orders(actions[1..], w));
    }
  }

  lemma RunFromInitial(s0: State, actions: seq<Action>, w: nat)
    requires Initial(s0) && IsRun(s0, actions) && w in s0.writers
    ensures Exec(s0, actions).writers.Keys == s0.writers.Keys
    ensures OrdersOf(Accepted(Exec(s0, actions), w)) == Orders(actions, w)
  {
    AcceptedIsAsked(s0, actions, w);
    assert OrdersOf(Accepted(s0, w)) == [];
  }

  /**
    From end to end: each dispatched message is one that the process named in it had asked for, with
    its kind and all its bytes; each request is dispatched at most once, and those of one process in
    the order in which it made them.
   */
  lemma DispatchedWasAsked(s0: State, actions: seq<Action>, k: nat)
    requires Initial(s0) && IsRun(s0, actions) && k < |Exec(s0, actions).dispatched|
    ensures |Exec(s0, actions).dispatched| <= |Exec(s0, actions).committed|
    ensures var s := Exec(s0, actions);
            var m, c := s.dispatched[k], s.committed[k];
            && c.source == m.source && m.source in s0.writers
            && c.entry.id < |Orders(actions, m.source)|
            && Orders(actions, m.source)[c.entry.id] == Order(m.kind, m.body)
            && forall j | 0 <= j < k && s.dispatched[j].source == m.source ::
                 s.committed[j].entry.id < c.entry.id
  {
    var s := Exec(s0, actions);
    EndToEndDelivery(s);
    DispatchedAre(s, k);
    var c := s.committed[k];
    SourceIsKnown(s0, actions, c.source, k);
    EntryIsAsked(s0, actions, c.source, c.entry, k);
    forall j | 0 <= j < k && s.dispatched[j].source == c.source ensures s.committed[j].entry.id < c.entry.id {
      DispatchedAre(s, j);
      CommitsAreInOrder(s, j, k);
    }
  }

  lemma DispatchedAre(s: State, k: nat)
    requires s.dispatched <= Messages(s.committed) && k < |s.dispatched|
    ensures s.dispatched[k] == MessageOf(s.committed[k])
  {
    assert s.dispatched[k] == Messages(s.committed)[k];
  }

  lemma SourceIsKnown(s0: State, actions: seq<Action>, w: nat, k: nat)
    requires Initial(s0) && IsRun(s0, actions)
    requires k < |Exec(s0, actions).committed| && Exec(s0, actions).committed[k].source == w
    ensures w in s0.writers
  {
    CommitsWereAccepted(Exec(s0, actions), k);
    RunKeepsProcesses(s0, actions);
  }

  lemma {:induction false} RunKeepsProcesses(s: State, actions: seq<Action>)
    requires IsRun(s, actions)
    ensures Exec(s, actions).writers.Keys == s.writers.Keys
    decreases actions
  {
    if actions != [] {
      if w :| w in s.writers { StepAccepts(s, actions[0], w); }
      RunKeepsProcesses(Apply(s, actions[0]), actions[1..]);
    }
  }

  lemma EntryIsAsked(s0: State, actions: seq<Action>, w: nat, e: Entry, k: nat)
    requires Initial(s0) && IsRun(s0, actions) && w in s0.writers
    requires k < |Exec(s0, actions).committed| && Exec(s0, actions).committed[k] == Sent(w, e)
    ensures e.id < |Orders(actions, w)| && Orders(actions, w)[e.id] == OrderOf(e)
  {
    var s := Exec(s0, actions);
    RunFromInitial(s0, actions, w);
    CommitsWereAccepted(s, k);
    ReachableAccounts(s);
    EntryHasPlace(s, w, e);
    assert OrdersOf(Accepted(s, w))[e.id] == OrderOf(e);
  }

  /** An accepted entry stands at the place that is its number. */
  lemma EntryHasPlace(s: State, w: nat, e: Entry)
    requires AccountInv(s) && w in s.writers && e in Accepted(s, w)
    ensures e.id < |Accepted(s, w)| && Accepted(s, w)[e.id] == e
  {
    var x := s.writers[w];
    assert AccountOk(x.ledger, x.queue.pending, By(s.committed, w));
    var i :| 0 <= i < |x.ledger.accepted| && x.ledger.accepted[i] == e;
  }

  /** Entries with increasing numbers below a bound that they reach are all there are. */
  lemma {:induction false} FullOrder(es: seq<Entry>, bound: nat)
    requires InOrder(es, bound)
    ensures |es| <= bound
    ensures |es| == bound ==> forall i | 0 <= i < |es| :: es[i].id == i
  {
    if es != [] {
      var k := |es| - 1;
      FullOrder(es[..k], es[k].id);
      assert forall i | 0 <= i < k :: es[..k][i] == es[i];
    }
  }

  /** No request of the process has failed. */
  ghost predicate NoneFailed(s: State, w: nat)
    requires w in s.writers
  {
    s.writers[w].ledger.failed == [] && s.writers[w].ledger.toldFailed == []
  }

  /** If nothing has failed, what was committed and what is pending are all that was accepted, in order. */
  lemma NothingIsMissing(s: State, w: nat)
    requires AccountInv(s) && w in s.writers && NoneFailed(s, w)
    ensures By(s.committed, w) + s.writers[w].queue.pending == Accepted(s, w)
  {
    var l, pending, sent := s.writers[w].ledger, s.writers[w].queue.pending, By(s.committed, w);
    assert AccountOk(l, pending, sent);
    var es, all := sent + pending, l.accepted;
    assert multiset(es) == multiset(l.toldSuccessful) + multiset(l.successful) + multiset(pending) == multiset(all);
    assert |es| == |multiset(es)| == |all|;
    FullOrder(es, |all|);
    forall i | 0 <= i < |all| ensures es[i] == all[i] {
      assert es[i] in multiset(es);
      assert es[i] in all;
      var j :| 0 <= j < |all| && all[j] == es[i];
      assert all[j].id == j;
    }
  }

  /** What of these messages came from w. */
  function From(ms: seq<Message>, w: nat): seq<Order> {
    if ms == [] then []
    else
      var k := |ms| - 1;
      From(ms[..k], w) + if ms[k].source == w then [Order(ms[k].kind, ms[k].body)] else []
  }

  lemma {:induction false} FromIsBy(cs: seq<Sent>, w: nat)
    ensures From(Messages(cs), w) == OrdersOf(By(cs, w))
  {
    if cs != [] {
      var k := |cs| - 1;
      FromIsBy(cs[..k], w);
      assert Messages(cs)[..k] == Messages(cs[..k]);
    }
  }

  /**
    Nothing is lost: when all that was committed has been dispatched, a process with nothing pending and
    nothing failed has had dispatched exactly what it asked for, in order.
   */
  lemma AllThatWasAskedArrives(s0: State, actions: seq<Action>, w: nat)
    requires Initial(s0) && IsRun(s0, actions) && w in s0.writers
    requires var s := Exec(s0, actions); s.dispatched == Messages(s.committed)
    ensures var s := Exec(s0, actions);
            w in s.writers
            && (NoneFailed(s, w) && s.writers[w].queue.pending == [] ==> From(s.dispatched, w) == Orders(actions, w))
  {
    var s := Exec(s0, actions);
    RunFromInitial(s0, actions, w);
    ReachableAccounts(s);
    if NoneFailed(s, w) && s.writers[w].queue.pending == [] {
      NothingIsMissing(s, w);
      assert By(s.committed, w) == Accepted(s, w);
      FromIsBy(s.committed, w);
    }
  }

  /**
    At rest: with the reader alive and nothing stranded, each living process none of whose requests
    failed has had dispatched exactly what it asked for.
   */
  lemma AtRestAllHasArrived(s0: State, actions: seq<Action>, w: nat)
    requires Initial(s0) && IsRun(s0, actions) && w in s0.writers
    requires var s := Exec(s0, actions); !s.reader.DeadReader? && Quiescent(s) && !s.stranded
    requires var s := Exec(s0, actions); Living(s, w) && NoneFailed(s, w)
    ensures From(Exec(s0, actions).dispatched, w) == Orders(actions, w)
  {
    QuiescenceMeansDelivered(Exec(s0, actions));
    AllThatWasAskedArrives(s0, actions, w);
  }

  /** When a process reports, its listener is told all that has come of its requests, and nothing twice. */
  lemma ReportTellsAll(s: State, w: nat)
    requires Reachable(s) && Enabled(s, DoReport(w))
    ensures var l, l' := s.writers[w].ledger, Apply(s, DoReport(w)).writers[w].ledger;
            && l'.successful == [] && l'.failed == [] && l'.accepted == l.accepted
            && l'.toldSuccessful == By(s.committed, w)
            && l'.toldFailed == l.toldFailed + l.failed
            && forall e | e in l'.accepted ::
                 e in s.writers[w].queue.pending || e in l'.toldSuccessful || e in l'.toldFailed
    ensures Apply(s, DoReport(w)).writers[w].pc.Idle?
  {
    ReachableInv(s);
    ReachableAccounts(s);
    WriterFacts(s, w);
    var x := s.writers[w];
    AcceptedAreSomewhere(x.ledger, x.queue.pending, By(s.committed, w));
  }

  lemma AcceptedAreSomewhere(l: Ledger, pending: seq<Entry>, committed: seq<Entry>)
    requires AccountOk(l, pending, committed)
    ensures Tell(l).toldSuccessful == committed
    ensures forall e | e in l.accepted :: e in pending || e in Tell(l).toldSuccessful || e in Tell(l).toldFailed
  {
    forall e | e in l.accepted ensures e in pending || e in Tell(l).toldSuccessful || e in Tell(l).toldFailed {
      assert e in multiset(l.accepted);
    }
  }
}
