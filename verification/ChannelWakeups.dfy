/** What every step of the channel keeps about the two events and about deaths before a signal. */
module ChannelWakeups {
  import opened Basics
  import opened Ring
  import opened Wire
  import opened Channel
  import opened ChannelInvariant

  /** A stranded packet is still in the ring when the reader goes to sleep. */
  ghost predicate StrandedOk(r: ReaderPc, stranded: bool, ring: seq<Packet>) {
    Drowsy(r) && stranded ==> ring != []
  }

  /** An event that has ended a wait stays set until the one who waited resets it. */
  ghost predicate ResetsOk(s: State) {
    && (s.reader.ResettingData? ==> s.dataSet)
    && forall w | Living(s, w) && s.writers[w].pc.ResettingSpace? :: s.spaceSet
  }

  ghost predicate WakeInv(s: State) {
    StrandedOk(s.reader, s.stranded, s.ring) && ResetsOk(s)
  }

  lemma ReaderKeepsWake(s: State)
    requires Inv(s) && WakeInv(s) && ReaderEnabled(s)
    ensures WakeInv(ReaderStep(s))
  {
    if s.reader.Reading? {
      ReadOnWakes(s);
    } else if s.reader == Opening {
      OpeningSees(s);
    }
  }

  lemma ReadOnWakes(s: State)
    requires s.reader.Reading?
    ensures var s' := ReadOn(s);
            && s'.dataSet == s.dataSet && s'.spaceSet == s.spaceSet && s'.writers == s.writers
            && !Drowsy(s'.reader) && !s'.reader.ResettingData?
  {
    ReadOnFrame(s);
  }

  /** The reader finds data exactly if there is a packet. */
  lemma OpeningSees(s: State)
    requires RingOk(s) && ReaderEnabled(s) && s.reader == Opening
    ensures var next := if s.ring == [] then SignallingSpace([], false, true) else Reading(s.tail, []);
            ReaderStep(s) == s.(reader := next, stranded := false)
  {
    assert |Contents(s.cells, s.head, s.tail)| == Used(s.head, s.tail, |s.cells|);
    if s.ring != [] { RingHeadPacket(s); }
  }

  /** What a writer's step may change besides the writer, as far as waking up is concerned. */
  ghost predicate WakesLike(s: State, s': State, w: nat)
    requires w in s.writers
  {
    && w in s'.writers && s'.writers == s.writers[w := s'.writers[w]] && s'.reader == s.reader
    && (s'.ring == s.ring || s'.ring != []) && (s'.stranded ==> s.stranded) && (s.dataSet ==> s'.dataSet)
    && (s'.spaceSet == s.spaceSet || s.writers[w].pc.ResettingSpace?)
    && (s'.writers[w].pc.ResettingSpace? ==> s.spaceSet && s'.spaceSet)
  }

  lemma CopyWakes(s: State, w: nat)
    requires w in s.writers && s.writers[w].pc.Copying?
    ensures WakesLike(s, CopyOn(s, w), w)
  {
  }

  lemma WriterWakes(s: State, w: nat)
    requires WriterEnabled(s, w)
    ensures WakesLike(s, WriterStep(s, w), w)
  {
    if s.writers[w].pc.Copying? { CopyWakes(s, w); }
  }

  lemma WriterKeepsWake(s: State, w: nat)
    requires Inv(s) && WakeInv(s) && WriterEnabled(s, w)
    ensures WakeInv(WriterStep(s, w))
  {
    var s' := WriterStep(s, w);
    WriterWakes(s, w);
    forall v | Living(s', v) && s'.writers[v].pc.ResettingSpace? ensures s'.spaceSet {
      if v != w {
        assert Living(s, v);
        WriterFacts(s, v);
        WriterFacts(s, w);
      }
    }
  }

  lemma StepKeepsWake(s: State, a: Action)
    requires Inv(s) && WakeInv(s) && Enabled(s, a)
    ensures WakeInv(Apply(s, a))
  {
    match a
    case StepReader => ReaderKeepsWake(s);
    case StepWriter(w) => WriterKeepsWake(s, w);
    case _ => WorldKeepsWake(s, a);
  }

  lemma WorldKeepsWake(s: State, a: Action)
    requires WakeInv(s) && Enabled(s, a) && !a.StepReader? && !a.StepWriter?
    ensures WakeInv(Apply(s, a))
  {
    if !a.KillReader? { PcKept(s, Apply(s, a), a.w); }
  }

  lemma PcKept(s: State, s': State, w: nat)
    requires WakeInv(s) && w in s.writers && w in s'.writers && s'.writers == s.writers[w := s'.writers[w]]
    requires s'.reader == s.reader && s'.dataSet == s.dataSet && s'.spaceSet == s.spaceSet && s'.ring == s.ring
    requires s'.stranded ==> s.stranded || s.ring != []
    requires Living(s', w) && s'.writers[w].pc.ResettingSpace? ==> Living(s, w) && s.writers[w].pc.ResettingSpace?
    ensures WakeInv(s')
  {
    forall v | Living(s', v) && s'.writers[v].pc.ResettingSpace? ensures s'.spaceSet {
      assert Living(s, v);
    }
  }

  lemma {:induction false} RunKeepsWake(s: State, actions: seq<Action>)
    requires Inv(s) && WakeInv(s) && IsRun(s, actions)
    ensures WakeInv(Exec(s, actions))
    decreases actions
  {
    if actions != [] {
      StepKeepsInv(s, actions[0]);
      StepKeepsWake(s, actions[0]);
      RunKeepsWake(Apply(s, actions[0]), actions[1..]);
    }
  }
}
