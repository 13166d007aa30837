/** Where every accepted message is: an invariant of its own, independent of the ring. */
module ChannelAccounts {
  import opened Basics
  import opened Wire
  import opened Channel

  /** The entries of one sender among the committed ones. */
  function By(cs: seq<Sent>, w: nat): seq<Entry> {
    if cs == [] then []
    else By(cs[..|cs| - 1], w) + if cs[|cs| - 1].source == w then [cs[|cs| - 1].entry] else []
  }

  /** All the places an accepted entry can be in. */
  ghost function Places(l: Ledger, pending: seq<Entry>): multiset<Entry> {
    multiset(pending) + multiset(l.successful) + multiset(l.failed)
    + multiset(l.toldSuccessful) + multiset(l.toldFailed)
  }

  ghost predicate InOrder(es: seq<Entry>, bound: nat) {
    && (forall i, j | 0 <= i < j < |es| :: es[i].id < es[j].id)
    && (forall i | 0 <= i < |es| :: es[i].id < bound)
  }

  /** Each accepted entry is in exactly one place; success means committed, in the order of acceptance. */
  ghost predicate AccountOk(l: Ledger, pending: seq<Entry>, committed: seq<Entry>) {
    && (forall i | 0 <= i < |l.accepted| :: l.accepted[i].id == i)
    && multiset(l.accepted) == Places(l, pending)
    && l.toldSuccessful + l.successful == committed
    && InOrder(committed + pending, |l.accepted|)
  }

  /** The senders of everything committed are known. */
  ghost predicate Known(writers: map<nat, Writer>, committed: seq<Sent>) {
    forall c | c in committed :: c.source in writers
  }

  ghost predicate AccountsOk(writers: map<nat, Writer>, committed: seq<Sent>) {
    && (forall w | w in writers :: AccountOk(writers[w].ledger, writers[w].queue.pending, By(committed, w)))
    && Known(writers, committed)
  }

  ghost predicate AccountInv(s: State) {
    AccountsOk(s.writers, s.committed)
  }

  lemma AccountsFrame(writers: map<nat, Writer>, committed: seq<Sent>, w: nat, x': Writer)
    requires AccountsOk(writers, committed) && AccountOk(x'.ledger, x'.queue.pending, By(committed, w))
    ensures AccountsOk(writers[w := x'], committed)
  {
  }

  /** A step that moves no entry. */
  lemma AccountsUntouched(writers: map<nat, Writer>, committed: seq<Sent>, w: nat, x': Writer)
    requires AccountsOk(writers, committed) && w in writers
    requires x'.ledger == writers[w].ledger && x'.queue.pending == writers[w].queue.pending
    ensures AccountsOk(writers[w := x'], committed)
  {
    assert AccountOk(writers[w].ledger, writers[w].queue.pending, By(committed, w));
    AccountsFrame(writers, committed, w, x');
  }

  lemma ByAppend(cs: seq<Sent>, c: Sent, w: nat)
    ensures By(cs + [c], w) == By(cs, w) + if c.source == w then [c.entry] else []
  {
    assert (cs + [c])[..|cs + [c]| - 1] == cs;
  }

  lemma SuccessPlaces(l: Ledger, pending: seq<Entry>)
    requires pending != []
    ensures Places(l.(successful := l.successful + [pending[0]]), pending[1..]) == Places(l, pending)
  {
    assert pending == [pending[0]] + pending[1..];
  }

  lemma SuccessMovesEntry(l: Ledger, pending: seq<Entry>, committed: seq<Entry>)
    requires AccountOk(l, pending, committed) && pending != []
    ensures AccountOk(l.(successful := l.successful + [pending[0]]), pending[1..], committed + [pending[0]])
  {
    SuccessPlaces(l, pending);
    assert committed + [pending[0]] + pending[1..] == committed + pending;
    assert l.toldSuccessful + (l.successful + [pending[0]]) == committed + [pending[0]];
  }

  lemma AfterPublishingAccount(x: Writer, signal: bool, w: nat, committed: seq<Sent>)
    requires x.pc.Copying? && x.queue.pending != []
    requires AccountOk(x.ledger, x.queue.pending, By(committed, w))
    ensures var x' := AfterPublishing(x, signal);
            AccountOk(x'.ledger, x'.queue.pending, By(committed + Finishes(w, x), w))
  {
    if x.pc.packet.header.last {
      ByAppend(committed, Sent(w, x.queue.pending[0]), w);
      SuccessMovesEntry(x.ledger, x.queue.pending, By(committed, w));
    } else {
      assert committed + [] == committed;
    }
  }

  lemma ByOthers(committed: seq<Sent>, w: nat, more: seq<Sent>, v: nat)
    requires more == [] || (|more| == 1 && more[0].source == w)
    requires v != w
    ensures By(committed + more, v) == By(committed, v)
  {
    if more == [] {
      assert committed + more == committed;
    } else {
      assert more == [more[0]];
      ByAppend(committed, more[0], v);
    }
  }

  lemma OthersAccounts(writers: map<nat, Writer>, committed: seq<Sent>, committed': seq<Sent>, w: nat, x': Writer)
    requires AccountsOk(writers, committed) && Known(writers, committed')
    requires AccountOk(x'.ledger, x'.queue.pending, By(committed', w))
    requires forall v | v in writers && v != w :: By(committed', v) == By(committed, v)
    ensures AccountsOk(writers[w := x'], committed')
  {
  }

  lemma PublishKeepsAccounts(writers: map<nat, Writer>, committed: seq<Sent>, w: nat, signal: bool)
    requires AccountsOk(writers, committed) && w in writers
    requires writers[w].pc.Copying? && writers[w].queue.pending != []
    ensures AccountsOk(writers[w := AfterPublishing(writers[w], signal)], committed + Finishes(w, writers[w]))
  {
    var x := writers[w];
    var sent := committed + Finishes(w, x);
    assert AccountOk(x.ledger, x.queue.pending, By(committed, w));
    AfterPublishingAccount(x, signal, w, committed);
    forall v | v in writers && v != w ensures By(sent, v) == By(committed, v) {
      ByOthers(committed, w, Finishes(w, x), v);
    }
    OthersAccounts(writers, committed, sent, w, AfterPublishing(x, signal));
  }

  lemma AcceptPending(l: Ledger, pending: seq<Entry>, committed: seq<Entry>, e: Entry)
    requires AccountOk(l, pending, committed) && e.id == |l.accepted|
    ensures AccountOk(l.(accepted := l.accepted + [e]), pending + [e], committed)
  {
    assert committed + (pending + [e]) == committed + pending + [e];
    assert Places(l.(accepted := l.accepted + [e]), pending + [e]) == Places(l, pending) + multiset{e};
  }

  lemma AcceptFailed(l: Ledger, pending: seq<Entry>, committed: seq<Entry>, e: Entry)
    requires AccountOk(l, pending, committed) && e.id == |l.accepted|
    ensures AccountOk(l.(accepted := l.accepted + [e], failed := l.failed + [e]), pending, committed)
  {
    var l' := l.(accepted := l.accepted + [e], failed := l.failed + [e]);
    assert Places(l', pending) == Places(l, pending) + multiset{e};
  }

  lemma SendAccounts(writers: map<nat, Writer>, committed: seq<Sent>, w: nat, kind: int, body: seq<byte>, x': Writer)
    requires AccountsOk(writers, committed) && w in writers
    requires var l := writers[w].ledger; var e := Entry(|l.accepted|, kind, body);
             x'.ledger == l.(accepted := l.accepted + [e]) && x'.queue.pending == writers[w].queue.pending + [e]
    ensures AccountsOk(writers[w := x'], committed)
  {
    var l := writers[w].ledger;
    AcceptPending(l, writers[w].queue.pending, By(committed, w), Entry(|l.accepted|, kind, body));
    AccountsFrame(writers, committed, w, x');
  }

  lemma RefuseAccounts(writers: map<nat, Writer>, committed: seq<Sent>, w: nat, e: Entry)
    requires AccountsOk(writers, committed) && w in writers && e.id == |writers[w].ledger.accepted|
    ensures var l := writers[w].ledger;
            AccountsOk(writers[w := writers[w].(ledger := l.(accepted := l.accepted + [e], failed := l.failed + [e]))],
                       committed)
  {
    var l := writers[w].ledger;
    AcceptFailed(l, writers[w].queue.pending, By(committed, w), e);
    AccountsFrame(writers, committed, w,
                  writers[w].(ledger := l.(accepted := l.accepted + [e], failed := l.failed + [e])));
  }

  lemma TellKeepsAccount(l: Ledger, pending: seq<Entry>, committed: seq<Entry>)
    requires AccountOk(l, pending, committed)
    ensures AccountOk(Tell(l), pending, committed)
  {
    assert Tell(l).toldSuccessful + [] == l.toldSuccessful + l.successful;
  }

  lemma TellAccounts(writers: map<nat, Writer>, committed: seq<Sent>, w: nat)
    requires AccountsOk(writers, committed) && w in writers
    ensures AccountsOk(writers[w := writers[w].(ledger := Tell(writers[w].ledger))], committed)
  {
    TellKeepsAccount(writers[w].ledger, writers[w].queue.pending, By(committed, w));
    AccountsFrame(writers, committed, w, writers[w].(ledger := Tell(writers[w].ledger)));
  }

  lemma FailPending(l: Ledger, pending: seq<Entry>, committed: seq<Entry>)
    requires AccountOk(l, pending, committed)
    ensures AccountOk(l.(failed := l.failed + pending), [], committed)
  {
    assert forall i | 0 <= i < |committed| :: (committed + pending)[i] == committed[i];
  }

  lemma DropAccounts(writers: map<nat, Writer>, committed: seq<Sent>, w: nat, x': Writer)
    requires AccountsOk(writers, committed) && w in writers
    requires var x := writers[w];
             x'.ledger == x.ledger.(failed := x.ledger.failed + x.queue.pending) && x'.queue.pending == []
    ensures AccountsOk(writers[w := x'], committed)
  {
    FailPending(writers[w].ledger, writers[w].queue.pending, By(committed, w));
    AccountsFrame(writers, committed, w, x');
  }

  // ---------------------------------------------------------------------------------------------
  // Every step
  // ---------------------------------------------------------------------------------------------

  ghost predicate MovesNoEntry(s: State, s': State, w: nat)
    requires w in s.writers
  {
    && s'.committed == s.committed
    && w in s'.writers && s'.writers == s.writers[w := s'.writers[w]]
    && s'.writers[w].ledger == s.writers[w].ledger
    && s'.writers[w].queue.pending == s.writers[w].queue.pending
  }

  lemma JumpMovesNoEntry(s: State, w: nat, pc: WriterPc)
    requires w in s.writers
    ensures MovesNoEntry(s, At(s, w, pc), w)
  {
  }

  /** A step other than the end of a copy moves no entry. */
  lemma WriterMovesNoEntry(s: State, w: nat)
    requires WriterEnabled(s, w) && !s.writers[w].pc.Copying?
    ensures MovesNoEntry(s, WriterStep(s, w), w)
  {
    var x := s.writers[w];
    if x.pc.Starting? {
      JumpMovesNoEntry(s, w, StartPc(s.cfg, |s.cells|, s.head, s.tail, w, x.queue, x.pc.count));
    }
  }

  /** The end of a copy commits the front message if its packet was the last one. */
  lemma CopyShape(s: State, w: nat)
    requires w in s.writers && s.writers[w].pc.Copying?
    ensures var x, s' := s.writers[w], CopyOn(s, w);
            && w in s'.writers && s'.writers == s.writers[w := s'.writers[w]]
            && if s'.writers[w].pc.Signalling?
               then && x.queue.pending != []
                    && s'.writers[w] == AfterPublishing(x, s'.writers[w].pc.signal)
                    && s'.committed == s.committed + Finishes(w, x)
               else && s'.committed == s.committed
                    && s'.writers[w].ledger == x.ledger && s'.writers[w].queue == x.queue
  {
  }

  lemma CopyKeepsAccounts(s: State, w: nat)
    requires AccountInv(s) && w in s.writers && s.writers[w].pc.Copying?
    ensures AccountInv(CopyOn(s, w))
  {
    var s' := CopyOn(s, w);
    CopyShape(s, w);
    if s'.writers[w].pc.Signalling? {
      PublishKeepsAccounts(s.writers, s.committed, w, s'.writers[w].pc.signal);
    } else {
      AccountsUntouched(s.writers, s.committed, w, s'.writers[w]);
    }
  }

  lemma WriterKeepsAccounts(s: State, w: nat)
    requires AccountInv(s) && WriterEnabled(s, w)
    ensures AccountInv(WriterStep(s, w))
  {
    if s.writers[w].pc.Copying? {
      CopyKeepsAccounts(s, w);
    } else {
      WriterMovesNoEntry(s, w);
      AccountsUntouched(s.writers, s.committed, w, WriterStep(s, w).writers[w]);
    }
  }

  lemma SendKeepsAccounts(s: State, w: nat, kind: int, body: seq<byte>)
    requires AccountInv(s) && w in s.writers
    ensures AccountInv(Send(s, w, kind, body)) && AccountInv(Refuse(s, w, kind, body))
  {
    SendAccounts(s.writers, s.committed, w, kind, body, Send(s, w, kind, body).writers[w]);
    RefuseAccounts(s.writers, s.committed, w, Entry(|s.writers[w].ledger.accepted|, kind, body));
  }

  lemma ReportKeepsAccounts(s: State, w: nat)
    requires AccountInv(s) && w in s.writers
    ensures AccountInv(Report(s, w))
  {
    TellAccounts(s.writers, s.committed, w);
    AccountsUntouched(s.writers, s.committed, w, s.writers[w].(pc := BrokenWriter));
  }

  lemma LeavingKeepsAccounts(s: State, w: nat)
    requires AccountInv(s) && w in s.writers
    ensures AccountInv(Drop(s, w)) && AccountInv(Die(s, w))
  {
    DropAccounts(s.writers, s.committed, w, Drop(s, w).writers[w]);
    AccountsUntouched(s.writers, s.committed, w, Die(s, w).writers[w]);
  }

  lemma StepKeepsAccounts(s: State, a: Action)
    requires AccountInv(s) && Enabled(s, a)
    ensures AccountInv(Apply(s, a))
  {
    match a
    case StepReader => ReaderMovesNoEntry(s);
    case KillReader =>
    case StepWriter(w) => WriterKeepsAccounts(s, w);
    case DoSend(w, kind, body) => SendKeepsAccounts(s, w, kind, body);
    case DoRefuse(w, kind, body) => SendKeepsAccounts(s, w, kind, body);
    case DoReport(w) => ReportKeepsAccounts(s, w);
    case DoDrop(w) => LeavingKeepsAccounts(s, w);
    case KillWriter(w) => LeavingKeepsAccounts(s, w);
  }

  lemma ReaderMovesNoEntry(s: State)
    requires ReaderEnabled(s)
    ensures ReaderStep(s).writers == s.writers && ReaderStep(s).committed == s.committed
  {
  }

  lemma {:induction false} RunKeepsAccounts(s: State, actions: seq<Action>)
    requires AccountInv(s) && IsRun(s, actions)
    ensures AccountInv(Exec(s, actions))
    decreases actions
  {
    if actions != [] {
      StepKeepsAccounts(s, actions[0]);
      RunKeepsAccounts(Apply(s, actions[0]), actions[1..]);
    }
  }
}
