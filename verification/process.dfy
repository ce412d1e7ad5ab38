/**
 The protocol as one process sees it: what each of its own steps needs and does, with no
 knowledge of the server. Whatever a server that keeps its promises does in between, a process
 that takes such steps stays inside the protocol.
 */
module Process {
  import opened Prelude
  import opened Transactions
  import opened Assembly
  import opened Sinks
  import opened Protocol
  import opened Theorems
  import Guard

  /** `stream`: the position the open replication stream has announced so far. */
  datatype Node = Node(life: Life, disk: SinkState, stream: Option<Lsn>)

  /** The steps a process takes; the others are the server's, the kernel's or a crash. */
  predicate IsOwn(a: Action) {
    a.Preflight? || a.StartStream? || a.GiveUp? || a.Deliver? || a.Keepalive? || a.Barrier? || a.Advance? || a.Disconnect?
  }

  predicate EndsLife(a: Action) {
    a.Crash? || a.Restart?
  }

  predicate GateOpen(n: Node) {
    && n.stream.Some?
    && MayAdvanceFromKeepalive(n.life.asm.open.None?, n.life.tracker.processed, n.life.tracker.durable)
    && n.stream.value > n.life.tracker.acked
  }

  function AfterFrame(n: Node, step: Step, walEnd: Lsn, position: Lsn, buffered: nat): Option<Node> {
    var life := n.life.(asm := step.state, tracker := n.life.tracker.NoteReceived(walEnd));
    if step.emitted.None? then Some(Node(life, n.disk, Some(position)))
    else
      var tx := step.emitted.value;
      if buffered > |n.disk.buffer| + |tx.changes| then None
      else Some(Node(life.(tracker := life.tracker.NoteProcessed(tx.endLsn)),
                     Accepted(n.disk, tx, buffered), Some(position)))
  }

  function AfterBarrier(n: Node): Node {
    var (disk, durable) := n.disk.Barrier();
    if durable.None? then n else n.(disk := disk, life := Acknowledge(n.life, durable.value))
  }

  /** The process's own step `a`, if its own state allows it. */
  function Local(n: Node, a: Action, limit: nat): Option<Node> {
    match a
    case Preflight(slot) =>
      var durable := n.life.tracker.durable;
      if n.stream.Some? || n.life.ready || (IsReconnect(durable) && Guard.CheckReconnect(Some(slot), durable).Err?) then None
      else Some(n.(life := n.life.(ready := true)))
    case StartStream =>
      if n.stream.Some? || !n.life.ready then None
      else Some(n.(stream := Some(0), life := n.life.(connected := true, ready := false)))
    case GiveUp => if n.stream.Some? || !n.life.ready then None else Some(n.(life := n.life.(ready := false)))
    case Deliver(f, walEnd, position, buffered) =>
      if n.stream.None? || Handle(n.life.asm, f, limit).Err? then None
      else AfterFrame(n, Handle(n.life.asm, f, limit).value, walEnd, position, buffered)
    case Keepalive(at) => if n.stream.None? then None else Some(n.(stream := Some(at)))
    case Barrier => if n.stream.None? then None else Some(AfterBarrier(n))
    case Advance => if GateOpen(n) then Some(n.(life := Acknowledge(n.life, n.stream.value))) else None
    case Disconnect => if n.stream.None? then None else Some(n.(stream := None, life := n.life.(asm := FRESH)))
    case _ => None
  }

  function Drive(n: Node, acts: seq<Action>, limit: nat): Option<Node> {
    if acts == [] then Some(n)
    else
      var before := Drive(n, acts[..|acts| - 1], limit);
      if before.Some? then Local(before.value, acts[|acts| - 1], limit) else None
  }

  lemma {:induction false} DriveAppend(n: Node, a: seq<Action>, b: seq<Action>, limit: nat)
    requires Drive(n, a, limit).Some?
    ensures Drive(n, a + b, limit) == Drive(Drive(n, a, limit).value, b, limit)
  {
    hide Local;
    if b == [] {
      assert a + b == a;
    } else {
      DriveAppend(n, a, b[..|b| - 1], limit);
      assert (a + b)[..|a + b| - 1] == a + b[..|b| - 1];
    }
  }

  lemma DriveOne(n: Node, a: Action, limit: nat)
    ensures Drive(n, [a], limit) == Local(n, a, limit)
  {
    hide Local;
    assert [a][..0] == [];
    assert Drive(n, [a][..0], limit) == Some(n);
  }

  // The process inside the protocol.

  /** The same lines in the same writer's buffer; the kernel may have written more of them back. */
  ghost predicate SameFile(d: SinkState, e: SinkState) {
    && d.device + d.kernel == e.device + e.kernel && |e.device| <= |d.device|
    && d.buffer == e.buffer && d.pending == e.pending
  }

  ghost predicate Matches(s: State, n: Node) {
    && s.life == Some(n.life) && SameFile(s.disk, n.disk)
    && (s.session.Some? <==> n.stream.Some?)
    && (n.stream.Some? ==> s.session.value.position == n.stream.value)
  }

  /** What the server and the kernel promise about step `a`; nothing about the process. */
  ghost predicate Promised(s: State, a: Action, limit: nat) {
    match a
    case Preflight(slot) => slot == s.confirmed
    case StartStream => true
    case GiveUp => true
    case Deliver(f, _, position, _) => s.session.Some? ==> DeliverEnabled(s, f, position)
    case Keepalive(_) => s.life.Some? && s.session.Some? ==> Enabled(s, a, limit)
    case Barrier => true
    case Advance => true
    case Disconnect => true
    case _ => Enabled(s, a, limit)
  }

  lemma AcceptedAlike(d: SinkState, e: SinkState, tx: Transaction, buffered: nat)
    requires SameFile(d, e) && buffered <= |e.buffer| + |tx.changes|
    ensures SameFile(Accepted(d, tx, buffered), Accepted(e, tx, buffered))
  {
    var k, l := d.kernel + d.buffer + tx.changes, e.kernel + e.buffer + tx.changes;
    var i, j := |k| - buffered, |l| - buffered;
    var tail := d.buffer + tx.changes;
    var t := |tail| - buffered;
    assert k == d.kernel + tail && l == e.kernel + tail;
    assert k[..i] == d.kernel + tail[..t] && l[..j] == e.kernel + tail[..t];
    assert k[i..] == tail[t..] && l[j..] == tail[t..];
    assert d.device + k[..i] == d.device + d.kernel + tail[..t];
    assert e.device + l[..j] == e.device + e.kernel + tail[..t];
  }

  lemma BarrierAlike(d: SinkState, e: SinkState)
    requires SameFile(d, e)
    ensures SameFile(d.Barrier().0, e.Barrier().0) && d.Barrier().1 == e.Barrier().1
  {
    assert d.Contents() == e.Contents();
  }

  lemma FrameStepMatches(s: State, n: Node, f: Frame, walEnd: Lsn, position: Lsn, buffered: nat, limit: nat)
    requires Matches(s, n) && n.stream.Some? && Handle(n.life.asm, f, limit).Ok?
    requires AfterFrame(n, Handle(n.life.asm, f, limit).value, walEnd, position, buffered).Some?
    ensures Matches(DeliverNext(s, f, walEnd, position, buffered, limit),
                    AfterFrame(n, Handle(n.life.asm, f, limit).value, walEnd, position, buffered).value)
  {
    hide Handle, Accepted, SameFile;
    var step := Handle(n.life.asm, f, limit).value;
    if step.emitted.Some? {
      AcceptedAlike(s.disk, n.disk, step.emitted.value, buffered);
    }
  }

  /** A step that the process's own state allows is a step of the protocol, and leads to the same place. */
  lemma OwnStepMatches(s: State, n: Node, a: Action, limit: nat)
    requires Matches(s, n) && IsOwn(a) && Promised(s, a, limit) && Local(n, a, limit).Some?
    ensures Enabled(s, a, limit) && Matches(Next(s, a, limit), Local(n, a, limit).value)
  {
    hide Handle, Accepted, SameFile, Denotes, AfterFrame, DeliverNext;
    if a.Deliver? {
      FrameStepMatches(s, n, a.frame, a.walEnd, a.position, a.buffered, limit);
    } else if a.Barrier? {
      BarrierAlike(s.disk, n.disk);
    }
  }

  /** What the server and the kernel do meanwhile does not touch the process. */
  lemma OtherStepMatches(s: State, n: Node, a: Action, limit: nat)
    requires Matches(s, n) && !IsOwn(a) && !EndsLife(a) && Promised(s, a, limit)
    ensures Enabled(s, a, limit) && Matches(Next(s, a, limit), n)
  {
    hide FreshKeys;
    if a.WriteBack? {
      var k := s.disk.kernel;
      assert s.disk.device + k[..a.lines] + k[a.lines..] == s.disk.device + k;
    }
  }

  function Own(acts: seq<Action>): seq<Action> {
    if acts == [] then []
    else Own(acts[..|acts| - 1]) + (if IsOwn(acts[|acts| - 1]) then [acts[|acts| - 1]] else [])
  }

  /** Everyone but the process keeps their promises along `acts`, and the process does not end. */
  ghost predicate Lawful(s: State, acts: seq<Action>, limit: nat) {
    acts != [] ==>
      var front, a := acts[..|acts| - 1], acts[|acts| - 1];
      && Lawful(s, front, limit) && !EndsLife(a)
      && (Exec(s, front, limit).Some? ==> Promised(Exec(s, front, limit).value, a, limit))
  }

  /**
   However the steps of the process are interleaved with those of a server and a kernel that keep
   their promises: the whole is a run of the protocol, and the process is where its own steps lead.
   */
  lemma {:induction false} ProcessRefinesProtocol(s: State, n: Node, acts: seq<Action>, limit: nat)
    requires Matches(s, n) && Lawful(s, acts, limit) && Drive(n, Own(acts), limit).Some?
    ensures Exec(s, acts, limit).Some?
    ensures Matches(Exec(s, acts, limit).value, Drive(n, Own(acts), limit).value)
  {
    hide Local, Enabled, Next, Promised, Matches;
    if acts != [] {
      var front, a := acts[..|acts| - 1], acts[|acts| - 1];
      if IsOwn(a) {
        assert Own(acts)[..|Own(acts)| - 1] == Own(front);
      } else {
        assert Own(acts) == Own(front);
      }
      ProcessRefinesProtocol(s, n, front, limit);
      var t, m := Exec(s, front, limit).value, Drive(n, Own(front), limit).value;
      if IsOwn(a) {
        OwnStepMatches(t, m, a, limit);
      } else {
        OtherStepMatches(t, m, a, limit);
      }
    }
  }

  lemma {:induction false} ExecAppend(s: State, a: seq<Action>, b: seq<Action>, limit: nat)
    requires Exec(s, a, limit).Some?
    ensures Exec(s, a + b, limit) == Exec(Exec(s, a, limit).value, b, limit)
  {
    hide Enabled, Next;
    if b == [] {
      assert a + b == a;
    } else {
      ExecAppend(s, a, b[..|b| - 1], limit);
      assert (a + b)[..|a + b| - 1] == a + b[..|b| - 1];
    }
  }

  /**
   No silent loss, for the process: whatever happened before its life began (`past`), and whatever
   the server and the kernel do between its steps, what the slot gives up is on the device.
   */
  lemma ProcessNeverLoses(s0: State, past: seq<Action>, n: Node, acts: seq<Action>, limit: nat, i: nat, k: nat)
    requires Initial(s0) && limit < TWO32 && NoForeign(past + acts) && Exec(s0, past, limit).Some?
    requires Matches(Exec(s0, past, limit).value, n)
    requires Lawful(Exec(s0, past, limit).value, acts, limit) && Drive(n, Own(acts), limit).Some?
    ensures Exec(s0, past + acts, limit).Some?
    ensures var s := Exec(s0, past + acts, limit).value;
            i < |s.log| && s.log[i].endLsn <= s.confirmed && k < |s.log[i].changes| ==>
              s.log[i].changes[k] in s.disk.device
  {
    hide Exec, Drive, Lawful, Matches;
    ProcessRefinesProtocol(Exec(s0, past, limit).value, n, acts, limit);
    ExecAppend(s0, past, acts, limit);
    var s := Exec(s0, past + acts, limit).value;
    if i < |s.log| && s.log[i].endLsn <= s.confirmed && k < |s.log[i].changes| {
      NoSilentLoss(s0, past + acts, limit, i, k);
    }
  }

  /** Nor does such a process ever find an honestly reported slot ahead of itself. */
  lemma ProcessNeverSeesSlotAhead(s0: State, past: seq<Action>, n: Node, acts: seq<Action>, limit: nat)
    requires Initial(s0) && limit < TWO32 && NoForeign(past + acts) && Exec(s0, past, limit).Some?
    requires Matches(Exec(s0, past, limit).value, n)
    requires Lawful(Exec(s0, past, limit).value, acts, limit) && Drive(n, Own(acts), limit).Some?
    ensures Exec(s0, past + acts, limit).Some?
    ensures var durable := Drive(n, Own(acts), limit).value.life.tracker.durable;
            IsReconnect(durable) ==>
              Guard.CheckReconnect(Some(Exec(s0, past + acts, limit).value.confirmed), durable).Ok?
  {
    hide Exec, Drive, Lawful;
    ProcessRefinesProtocol(Exec(s0, past, limit).value, n, acts, limit);
    ExecAppend(s0, past, acts, limit);
    if IsReconnect(Drive(n, Own(acts), limit).value.life.tracker.durable) {
      SlotAheadUnreachable(s0, past + acts, limit);
    }
  }

  // The process's own file.

  /** The steps without what the kernel writes back by itself. */
  function Quiet(acts: seq<Action>): seq<Action> {
    if acts == [] then []
    else Quiet(acts[..|acts| - 1]) + (if acts[|acts| - 1].WriteBack? then [] else [acts[|acts| - 1]])
  }

  /** Apart from how far the kernel has written back, the states are the same. */
  ghost predicate SameButFile(s: State, t: State) {
    t == s.(disk := t.disk)
  }

  lemma PromisedAlike(s: State, t: State, a: Action, limit: nat)
    requires SameButFile(s, t) && Promised(s, a, limit) && !a.WriteBack? && !EndsLife(a)
    ensures Promised(t, a, limit)
  {
    hide FreshKeys, Denotes;
  }

  /** A step of either state keeps them the same, as long as both have the same process in them. */
  lemma StepAlike(s: State, t: State, n: Node, a: Action, limit: nat)
    requires SameButFile(s, t) && Matches(s, n) && Matches(t, n) && !a.WriteBack? && !EndsLife(a)
    requires Enabled(s, a, limit) && Enabled(t, a, limit)
    ensures SameButFile(Next(s, a, limit), Next(t, a, limit))
  {
    hide FreshKeys, Denotes, Handle, Accepted;
  }

  /** Without write-back the file is exactly the one the process knows. */
  lemma OwnFileStep(t: State, n: Node, a: Action, limit: nat)
    requires Matches(t, n) && t.disk == n.disk && !a.WriteBack? && !EndsLife(a) && Enabled(t, a, limit)
    requires IsOwn(a) ==> Local(n, a, limit).Some?
    ensures Next(t, a, limit).disk == if IsOwn(a) then Local(n, a, limit).value.disk else n.disk
  {
    hide FreshKeys, Denotes, Handle, Accepted;
  }

  /**
   What the kernel writes back by itself can be left out of a run: the same steps without it are a
   lawful run to the same server, slot and process, and to the file that the process itself made.
   */
  lemma {:induction false} WriteBackIsUnseen(s: State, n: Node, acts: seq<Action>, limit: nat)
    requires Matches(s, n) && s.disk == n.disk && Lawful(s, acts, limit) && Drive(n, Own(acts), limit).Some?
    ensures Lawful(s, Quiet(acts), limit) && Own(Quiet(acts)) == Own(acts)
    ensures Exec(s, acts, limit).Some? && Exec(s, Quiet(acts), limit).Some?
    ensures SameButFile(Exec(s, acts, limit).value, Exec(s, Quiet(acts), limit).value)
    ensures Exec(s, Quiet(acts), limit).value.disk == Drive(n, Own(acts), limit).value.disk
    ensures Matches(Exec(s, acts, limit).value, Drive(n, Own(acts), limit).value)
    ensures Matches(Exec(s, Quiet(acts), limit).value, Drive(n, Own(acts), limit).value)
  {
    hide Local, Enabled, Next, Promised, Matches, SameButFile;
    if acts == [] {
      assert SameButFile(s, s) by { SameAsItself(s); }
    } else {
      var front, a := acts[..|acts| - 1], acts[|acts| - 1];
      OwnOfMore(front, a);
      assert front + [a] == acts;
      DriveOfFront(n, front, a, limit);
      WriteBackIsUnseen(s, n, front, limit);
      QuietStep(s, n, front, a, limit);
    }
  }

  lemma SameAsItself(s: State)
    ensures SameButFile(s, s)
  {
  }

  lemma OwnOfMore(acts: seq<Action>, a: Action)
    ensures Own(acts + [a]) == Own(acts) + (if IsOwn(a) then [a] else [])
    ensures Quiet(acts + [a]) == Quiet(acts) + (if a.WriteBack? then [] else [a])
  {
    assert (acts + [a])[..|acts|] == acts;
  }

  lemma DriveOfFront(n: Node, acts: seq<Action>, a: Action, limit: nat)
    requires Drive(n, Own(acts + [a]), limit).Some?
    ensures Drive(n, Own(acts), limit).Some?
    ensures Drive(n, Own(acts + [a]), limit) ==
            if IsOwn(a) then Local(Drive(n, Own(acts), limit).value, a, limit) else Drive(n, Own(acts), limit)
  {
    hide Local;
    OwnOfMore(acts, a);
    if IsOwn(a) {
      assert Own(acts + [a])[..|Own(acts)|] == Own(acts);
    } else {
      assert Own(acts + [a]) == Own(acts);
    }
  }

  lemma QuietStep(s: State, n: Node, front: seq<Action>, a: Action, limit: nat)
    requires Lawful(s, front + [a], limit) && Drive(n, Own(front + [a]), limit).Some?
    requires Lawful(s, Quiet(front), limit) && Own(Quiet(front)) == Own(front) && Drive(n, Own(front), limit).Some?
    requires Exec(s, front, limit).Some? && Exec(s, Quiet(front), limit).Some?
    requires SameButFile(Exec(s, front, limit).value, Exec(s, Quiet(front), limit).value)
    requires Exec(s, Quiet(front), limit).value.disk == Drive(n, Own(front), limit).value.disk
    requires Matches(Exec(s, front, limit).value, Drive(n, Own(front), limit).value)
    requires Matches(Exec(s, Quiet(front), limit).value, Drive(n, Own(front), limit).value)
    ensures var acts := front + [a];
      && Lawful(s, Quiet(acts), limit) && Own(Quiet(acts)) == Own(acts)
      && Exec(s, acts, limit).Some? && Exec(s, Quiet(acts), limit).Some?
      && SameButFile(Exec(s, acts, limit).value, Exec(s, Quiet(acts), limit).value)
      && Exec(s, Quiet(acts), limit).value.disk == Drive(n, Own(acts), limit).value.disk
      && Matches(Exec(s, acts, limit).value, Drive(n, Own(acts), limit).value)
      && Matches(Exec(s, Quiet(acts), limit).value, Drive(n, Own(acts), limit).value)
  {
    hide Local, Enabled, Next, Promised, Matches, SameButFile;
    var u, v, m := Exec(s, front, limit).value, Exec(s, Quiet(front), limit).value, Drive(n, Own(front), limit).value;
    assert (front + [a])[..|front|] == front;
    OwnOfMore(front, a);
    OwnOfMore(Quiet(front), a);
    DriveOfFront(n, front, a, limit);
    if a.WriteBack? {
      OtherStepMatches(u, m, a, limit);
      WrittenBackAlike(u, v, a, limit);
      assert Quiet(front) + [] == Quiet(front) && Own(front) + [] == Own(front);
    } else {
      assert (Quiet(front) + [a])[..|Quiet(front)|] == Quiet(front);
      PromisedAlike(u, v, a, limit);
      StepMatches(u, m, a, limit);
      StepMatches(v, m, a, limit);
      StepAlike(u, v, m, a, limit);
      OwnFileStep(v, m, a, limit);
    }
  }

  lemma StepMatches(s: State, n: Node, a: Action, limit: nat)
    requires Matches(s, n) && !EndsLife(a) && Promised(s, a, limit) && (IsOwn(a) ==> Local(n, a, limit).Some?)
    ensures Enabled(s, a, limit)
    ensures Matches(Next(s, a, limit), if IsOwn(a) then Local(n, a, limit).value else n)
  {
    hide Local, Enabled, Next, Promised, Matches;
    if IsOwn(a) {
      OwnStepMatches(s, n, a, limit);
    } else {
      OtherStepMatches(s, n, a, limit);
    }
  }

  lemma WrittenBackAlike(s: State, t: State, a: Action, limit: nat)
    requires SameButFile(s, t) && a.WriteBack? && Enabled(s, a, limit)
    ensures SameButFile(Next(s, a, limit), t)
  {
  }

  /**
   No silent loss, in the file the process itself made: what the slot gives up was synchronised by
   this process or was on the device when its life began. Nothing rests on the kernel writing back
   of its own accord.
   */
  lemma ProcessFileHoldsAll(s0: State, past: seq<Action>, n: Node, acts: seq<Action>, limit: nat, i: nat, k: nat)
    requires Initial(s0) && limit < TWO32 && NoForeign(past + acts) && Exec(s0, past, limit).Some?
    requires Matches(Exec(s0, past, limit).value, n) && Exec(s0, past, limit).value.disk == n.disk
    requires Lawful(Exec(s0, past, limit).value, acts, limit) && Drive(n, Own(acts), limit).Some?
    ensures Exec(s0, past + acts, limit).Some?
    ensures var s := Exec(s0, past + acts, limit).value;
            i < |s.log| && s.log[i].endLsn <= s.confirmed && k < |s.log[i].changes| ==>
              s.log[i].changes[k] in Drive(n, Own(acts), limit).value.disk.device
  {
    hide Exec, Drive, Lawful, Matches;
    var s := Exec(s0, past, limit).value;
    WriteBackIsUnseen(s, n, acts, limit);
    ExecAppend(s0, past, acts, limit);
    ExecAppend(s0, past, Quiet(acts), limit);
    QuietIsPart(acts);
    var u, v := Exec(s0, past + acts, limit).value, Exec(s0, past + Quiet(acts), limit).value;
    if i < |u.log| && u.log[i].endLsn <= u.confirmed && k < |u.log[i].changes| {
      NoSilentLoss(s0, past + Quiet(acts), limit, i, k);
    }
  }

  lemma {:induction false} QuietIsPart(acts: seq<Action>)
    ensures forall a <- Quiet(acts) :: a in acts
  {
    if acts != [] {
      QuietIsPart(acts[..|acts| - 1]);
    }
  }

  // The file a dying process leaves.

  /** What is on the disk is what a crash right after `n` could have left. */
  ghost predicate CrashLeaves(n: Node, disk: SinkState) {
    && disk.device == n.disk.device
    && |disk.device| <= |disk.Contents()| && disk.Contents() <= n.disk.Contents()
  }

  /** The process went through the steps `acts`; it is where they lead, unless `fatal`. */
  ghost predicate Went(before: Node, acts: seq<Action>, limit: nat, fatal: bool, after: Node) {
    && Drive(before, acts, limit).Some?
    && (!fatal ==> Drive(before, acts, limit).value == after)
    && (fatal ==> CrashLeaves(Drive(before, acts, limit).value, after.disk))
  }

  /** The file as it was before a step that failed. */
  lemma DiesInPlace(n: Node, limit: nat, after: Node)
    requires after.disk.device == n.disk.device && after.disk.Contents() == n.disk.Contents()
    ensures Went(n, [], limit, true, after) && Went(n, [], limit, false, n)
  {
  }

  /** An attempt that fails after the slot was checked leaves the process as it was. */
  lemma WentInVain(n: Node, slot: Lsn, limit: nat, fatal: bool)
    requires n.stream.None? && !n.life.ready
    requires IsReconnect(n.life.tracker.durable) ==> Guard.CheckReconnect(Some(slot), n.life.tracker.durable).Ok?
    ensures Went(n, [Preflight(slot), GiveUp], limit, fatal, n)
  {
    var acts := [Preflight(slot), GiveUp];
    DriveOne(n, Preflight(slot), limit);
    assert acts[..1] == [Preflight(slot)];
  }

  lemma WentToStream(n: Node, slot: Lsn, limit: nat)
    requires n.stream.None? && !n.life.ready
    requires IsReconnect(n.life.tracker.durable) ==> Guard.CheckReconnect(Some(slot), n.life.tracker.durable).Ok?
    ensures Went(n, [Preflight(slot), StartStream], limit, false, n.(stream := Some(0), life := n.life.(connected := true)))
  {
    var acts := [Preflight(slot), StartStream];
    DriveOne(n, Preflight(slot), limit);
    assert acts[..1] == [Preflight(slot)];
  }

  /** The file torn in the middle of the transaction that the frame completed. */
  lemma DiesWriting(n: Node, f: Frame, walEnd: Lsn, position: Lsn, limit: nat, after: Node)
    requires n.stream.Some? && Handle(n.life.asm, f, limit).Ok? && Handle(n.life.asm, f, limit).value.emitted.Some?
    requires var tx := Handle(n.life.asm, f, limit).value.emitted.value;
             n.disk.Contents() <= after.disk.Contents() <= Accepted(n.disk, tx, 0).Contents()
    requires after.disk.device == n.disk.device
    ensures Went(n, [Deliver(f, walEnd, position, 0)], limit, true, after)
  {
    hide Handle;
    DriveOne(n, Deliver(f, walEnd, position, 0), limit);
  }

  lemma WentOne(n: Node, a: Action, limit: nat, after: Node)
    requires Local(n, a, limit) == Some(after)
    ensures Went(n, [a], limit, false, after)
  {
    hide Local;
    DriveOne(n, a, limit);
  }

  lemma TakesFrame(n: Node, f: Frame, walEnd: Lsn, position: Lsn, buffered: nat, limit: nat, after: Node)
    requires n.stream.Some? && Handle(n.life.asm, f, limit).Ok?
    requires AfterFrame(n, Handle(n.life.asm, f, limit).value, walEnd, position, buffered) == Some(after)
    ensures Went(n, [Deliver(f, walEnd, position, buffered)], limit, false, after)
  {
    hide Handle, AfterFrame;
    WentOne(n, Deliver(f, walEnd, position, buffered), limit, after);
  }

  lemma WentTo(n: Node, acts: seq<Action>, limit: nat, after: Node)
    requires Went(n, acts, limit, false, after)
    ensures Drive(n, acts, limit) == Some(after)
  {
    hide Drive;
  }

  lemma WentOn(n: Node, a: seq<Action>, m: Node, b: seq<Action>, limit: nat, fatal: bool, after: Node)
    requires Went(n, a, limit, false, m) && Went(m, b, limit, fatal, after)
    ensures Went(n, a + b, limit, fatal, after)
  {
    DriveAppend(n, a, b, limit);
  }
}
