/** The counter in the `.lock` file: processes that enter and leave, one memory access or lock call at a time. The
    locks are advisory record locks: a process locks and unlocks ranges of bytes, and ranges may overlap. */
module LockProtocol {
  import opened Arith
  import opened Wrappers
  import opened Layout

  /** The bytes that are locked for the counter, for the `.lock` inode, and for a search for free blocks. */
  datatype Ranges = Ranges(block: set<nat>, inode: set<nat>, search: set<nat>)

  /** What the proofs need to know about them. */
  ghost predicate Good(r: Ranges) {
    && r.block - r.inode != {} && r.search !! r.inode && (r.block !! r.inode || r.block !! r.search)
  }

  predicate From(b: nat, start: nat) {
    start <= b
  }

  ghost function Bytes(start: nat, length: nat): set<nat> {
    set b: nat | b < start + length && From(b, start)
  }

  /** The ranges of a volume: the one for the counter starts at the number of the first data block, taken for a byte. */
  ghost function RangesOf(mb: MasterBlock): Ranges {
    Ranges(Bytes(mb.dataStartBlock, mb.blockSize),
           Bytes(mb.firstInodeTableBlock * mb.blockSize + INODE_SIZE, INODE_SIZE),
           Bytes(32, 8))
  }

  /** In every accepted layout the ranges are as the proofs need them. The range for the counter meets that for
      searches if and only if fewer than 40 blocks come before the first data block. */
  lemma LayoutRanges(blockSize: nat, n: nat)
    requires Accepted(blockSize, n)
    ensures var mb := GetInitialMasterBlock(blockSize, n);
      && Good(RangesOf(mb))
      && (RangesOf(mb).block !! RangesOf(mb).search <==> mb.dataStartBlock >= 40)
      && (RangesOf(mb).search <= RangesOf(mb).block <==> mb.dataStartBlock <= 32)
  {
    var mb := GetInitialMasterBlock(blockSize, n);
    var r, d, i := RangesOf(mb), mb.dataStartBlock, mb.firstInodeTableBlock * blockSize + INODE_SIZE;
    CeilDivBounds(n, blockSize * 8);
    MulMonotone(2, mb.firstInodeTableBlock, blockSize);
    assert i >= 2 * blockSize + INODE_SIZE;
    assert if d < i then d in r.block - r.inode else d + blockSize - 1 in r.block - r.inode;
    assert 39 in r.search && 32 in r.search;
    if d < 40 {
      assert r.block !! r.inode;
      assert 39 in r.block * r.search;
      assert d > 32 ==> 32 !in r.block;
    } else {
      assert r.block !! r.search;
    }
  }

  /** Where a process stands in the calls that bracket its work, and in its searches for free blocks. */
  datatype Pc =
    | Outside
    | EnterTried             // has tried to lock the `.lock` inode
    | EnterHolds             // holds the lock on the lock block
    | EnterLoaded(v: int)
    | EnterStored
    | Inside
    | Searching              // holds the lock on the number of the first free block
    | LeaveHolds
    | LeaveLoaded(v: int)
    | LeaveStored
    | LeaveRead(value: int)
    | LeaveSettled           // has tried to lock, or unlocked, the `.lock` inode

  /** The counter, the bytes that each process has locked, and where it stands. */
  datatype State = State(counter: int, held: seq<set<nat>>, pcs: seq<Pc>)

  /** The turn of a process. Inside, it chooses between a search and leaving; in a search, between keeping the lock,
      which a creation does when the name exists, and giving it up. */
  datatype Turn = Turn(p: nat, choice: bool)

  function Init(n: nat): State {
    State(0, seq(n, _ => {}), seq(n, _ => Outside))
  }

  /** No other process has locked a byte of the range. */
  ghost predicate Free(held: seq<set<nat>>, p: nat, range: set<nat>) {
    forall q :: 0 <= q < |held| && q != p ==> held[q] !! range
  }

  function Lock(held: seq<set<nat>>, p: nat, range: set<nat>): seq<set<nat>>
    requires p < |held|
  {
    held[p := held[p] + range]
  }

  /** A process can give up only its own locks. */
  function Unlock(held: seq<set<nat>>, p: nat, range: set<nat>): seq<set<nat>>
    requires p < |held|
  {
    held[p := held[p] - range]
  }

  /** A try to lock does not wait, and its failure goes unnoticed. */
  ghost function TryLock(held: seq<set<nat>>, p: nat, range: set<nat>): seq<set<nat>>
    requires p < |held|
  {
    if Free(held, p, range) then Lock(held, p, range) else held
  }

  /** The range that a process is about to lock, waiting for it if need be. */
  function Wanted(r: Ranges, pc: Pc, choice: bool): set<nat> {
    match pc
    case EnterTried => r.block
    case Inside => if choice then r.search else r.block
    case _ => {}
  }

  /** The next step of a process; nothing if it has to wait for a lock. */
  ghost function Move(r: Ranges, s: State, t: Turn): Option<State>
    requires t.p < |s.pcs| == |s.held|
  {
    if !Free(s.held, t.p, Wanted(r, s.pcs[t.p], t.choice)) then None else Some(Moved(r, s, t))
  }

  ghost function Moved(r: Ranges, s: State, t: Turn): State
    requires t.p < |s.pcs| == |s.held|
  {
    var p := t.p;
    match s.pcs[p]
    case Outside => State(s.counter, TryLock(s.held, p, r.inode), s.pcs[p := EnterTried])
    case EnterTried => State(s.counter, Lock(s.held, p, r.block), s.pcs[p := EnterHolds])
    case EnterHolds => s.(pcs := s.pcs[p := EnterLoaded(s.counter)])
    case EnterLoaded(v) => State(v + 1, s.held, s.pcs[p := EnterStored])
    case EnterStored => State(s.counter, Unlock(s.held, p, r.block), s.pcs[p := Inside])
    case Inside =>
      if t.choice then State(s.counter, Lock(s.held, p, r.search), s.pcs[p := Searching])
      else State(s.counter, Lock(s.held, p, r.block), s.pcs[p := LeaveHolds])
    case Searching =>
      State(s.counter, if t.choice then s.held else Unlock(s.held, p, r.search), s.pcs[p := Inside])
    case LeaveHolds => s.(pcs := s.pcs[p := LeaveLoaded(s.counter)])
    case LeaveLoaded(v) => State(v - 1, s.held, s.pcs[p := LeaveStored])
    case LeaveStored => s.(pcs := s.pcs[p := LeaveRead(s.counter)])
    case LeaveRead(value) =>
      State(s.counter, if value != 0 then TryLock(s.held, p, r.inode) else Unlock(s.held, p, r.inode),
            s.pcs[p := LeaveSettled])
    case LeaveSettled => State(s.counter, Unlock(s.held, p, r.block), s.pcs[p := Outside])
  }

  /** The state after the turns of `schedule`, in that order. */
  ghost function Run(r: Ranges, s: State, schedule: seq<Turn>): (t: State)
    requires |s.pcs| == |s.held|
    ensures |t.pcs| == |t.held| == |s.pcs|
    decreases |schedule|
  {
    if schedule == [] then s
    else
      var before := Run(r, s, schedule[..|schedule| - 1]);
      var t := schedule[|schedule| - 1];
      if t.p >= |before.pcs| then before
      else match Move(r, before, t) case None => before case Some(after) => after
  }

  predicate Holds(pc: Pc) {
    !pc.Outside? && !pc.EnterTried? && !pc.Inside? && !pc.Searching?
  }

  /** The counter counts a process from its store on entering to its store on leaving. */
  predicate Counted(pc: Pc) {
    pc.EnterStored? || pc.Inside? || pc.Searching? || pc.LeaveHolds? || pc.LeaveLoaded?
  }

  /** A process that has entered and is not about to leave yet. */
  predicate Within(pc: Pc) {
    pc.Inside? || pc.Searching?
  }

  ghost function CountedSet(pcs: seq<Pc>): set<nat> {
    set p: nat | p < |pcs| && Counted(pcs[p])
  }

  ghost function InsideSet(pcs: seq<Pc>): set<nat> {
    set p: nat | p < |pcs| && Within(pcs[p])
  }

  /** The value a process has at hand is still that of the counter. */
  predicate FreshValue(s: State, pc: Pc) {
    match pc
    case EnterLoaded(v) => v == s.counter
    case LeaveLoaded(v) => v == s.counter
    case LeaveRead(value) => value == s.counter
    case _ => true
  }

  /** What a process at `pc` has locked: between its lock call and its unlock call the range for the counter, but for
      what that shares with the `.lock` inode; in a search the range for that; and otherwise, of those ranges, at most
      what it has been given of the inode's on entering, and what it has kept of a search. */
  ghost predicate HeldOk(r: Ranges, held: set<nat>, pc: Pc) {
    && held <= r.block + r.inode + r.search
    && (Holds(pc) ==> r.block - r.inode <= held)
    && (pc.Searching? ==> r.search <= held)
    && (!Holds(pc) ==> held * (r.block - r.inode - r.search) == {})
    && (!Holds(pc) && !pc.EnterTried? ==> held * r.block * r.inode == {})
    && (held * r.block * r.inode == {} || r.block * r.inode <= held || Holds(pc))
    && (!Holds(pc) && held * r.block * r.search != {} ==> r.search <= held)
    && (held * (r.search - r.block) == {} || r.search - r.block <= held)
  }

  /** No byte is locked by two processes, and each has locked what its place in the protocol says. */
  ghost predicate LocksOk(r: Ranges, s: State) {
    && |s.pcs| == |s.held|
    && (forall p, q :: 0 <= p < |s.held| && 0 <= q < |s.held| && p != q ==> s.held[p] !! s.held[q])
    && (forall p :: 0 <= p < |s.held| ==> HeldOk(r, s.held[p], s.pcs[p]))
  }

  /** Besides, the counter is the number of processes that it counts, and values loaded are up to date. */
  ghost predicate Inv(r: Ranges, s: State) {
    && LocksOk(r, s)
    && s.counter == |CountedSet(s.pcs)|
    && (forall p :: 0 <= p < |s.pcs| ==> FreshValue(s, s.pcs[p]))
  }

  /** At most one process is between its lock call and its unlock call. */
  lemma OneHolder(r: Ranges, s: State, p: nat, q: nat)
    requires Good(r) && LocksOk(r, s) && p < |s.pcs| && q < |s.pcs| && p != q
    ensures !(Holds(s.pcs[p]) && Holds(s.pcs[q]))
  {
    assert HeldOk(r, s.held[p], s.pcs[p]) && HeldOk(r, s.held[q], s.pcs[q]);
    var b :| b in r.block - r.inode;
    assert s.held[p] !! s.held[q];
  }

  lemma CountedAfter(pcs: seq<Pc>, p: nat, pc: Pc)
    requires p < |pcs|
    ensures |CountedSet(pcs[p := pc])|
         == |CountedSet(pcs)| + (if Counted(pc) then 1 else 0) - (if Counted(pcs[p]) then 1 else 0)
  {
    hide Counted;
    var before, after := CountedSet(pcs), CountedSet(pcs[p := pc]);
    assert p in before <==> Counted(pcs[p]);
    assert after == if Counted(pc) then before + {p} else before - {p};
  }

  /** A step changes what one process has locked: it stays apart from the others, and in order. */
  lemma MoveKeepsHeld(r: Ranges, s: State, t: Turn)
    requires Good(r) && LocksOk(r, s) && t.p < |s.pcs| && Move(r, s, t).Some?
    ensures var u := Move(r, s, t).value;
      && |u.held| == |s.held| && u.held == s.held[t.p := u.held[t.p]] && |u.pcs| == |s.pcs|
      && u.pcs == s.pcs[t.p := u.pcs[t.p]]
      && HeldOk(r, u.held[t.p], u.pcs[t.p])
      && forall q :: 0 <= q < |s.held| && q != t.p ==> u.held[t.p] !! s.held[q]
  {
    assert HeldOk(r, s.held[t.p], s.pcs[t.p]);
    forall q | 0 <= q < |s.held| && q != t.p ensures Move(r, s, t).value.held[t.p] !! s.held[q] {
      assert s.held[t.p] !! s.held[q];
    }
  }

  lemma MoveKeepsLocks(r: Ranges, s: State, t: Turn)
    requires Good(r) && LocksOk(r, s) && t.p < |s.pcs| && Move(r, s, t).Some?
    ensures LocksOk(r, Move(r, s, t).value)
  {
    hide Move, HeldOk;
    MoveKeepsHeld(r, s, t);
  }

  lemma MoveCounts(r: Ranges, s: State, t: Turn)
    requires |s.pcs| == |s.held| && s.counter == |CountedSet(s.pcs)| && t.p < |s.pcs| && FreshValue(s, s.pcs[t.p])
    requires Move(r, s, t).Some?
    ensures Move(r, s, t).value.counter == |CountedSet(Move(r, s, t).value.pcs)|
  {
    hide CountedSet;
    var u := Move(r, s, t).value;
    CountedAfter(s.pcs, t.p, u.pcs[t.p]);
    assert u.pcs == s.pcs[t.p := u.pcs[t.p]];
  }

  /** Every step of every process keeps the invariant. */
  lemma MoveKeepsInv(r: Ranges, s: State, t: Turn)
    requires Good(r) && Inv(r, s) && t.p < |s.pcs| && Move(r, s, t).Some?
    ensures Inv(r, Move(r, s, t).value)
  {
    hide CountedSet, HeldOk;
    MoveKeepsLocks(r, s, t);
    assert FreshValue(s, s.pcs[t.p]);
    MoveCounts(r, s, t);
    forall q | 0 <= q < |s.pcs| ensures FreshValue(Move(r, s, t).value, Move(r, s, t).value.pcs[q]) {
      assert FreshValue(s, s.pcs[q]);
      if q != t.p {
        OneHolder(r, s, t.p, q);
      }
    }
  }

  lemma InitInv(r: Ranges, n: nat)
    ensures Inv(r, Init(n))
  {
    assert CountedSet(Init(n).pcs) == {};
  }

  /** The invariant holds in every interleaving of any number of processes. */
  lemma {:induction false} RunKeepsInv(r: Ranges, n: nat, schedule: seq<Turn>)
    requires Good(r)
    ensures Inv(r, Run(r, Init(n), schedule))
    decreases |schedule|
  {
    hide Inv, Move;
    if schedule == [] {
      InitInv(r, n);
    } else {
      var before, t := Run(r, Init(n), schedule[..|schedule| - 1]), schedule[|schedule| - 1];
      RunKeepsInv(r, n, schedule[..|schedule| - 1]);
      if t.p < |before.pcs| && Move(r, before, t).Some? {
        MoveKeepsInv(r, before, t);
      }
    }
  }

  /** Whenever nobody is between a lock call and an unlock call, the counter is the number of processes that have
      entered and not left. */
  lemma CounterCountsInside(r: Ranges, n: nat, schedule: seq<Turn>)
    requires Good(r) && forall p :: 0 <= p < n ==> !Holds(Run(r, Init(n), schedule).pcs[p])
    ensures Run(r, Init(n), schedule).counter == |InsideSet(Run(r, Init(n), schedule).pcs)|
  {
    hide Run, LocksOk;
    RunKeepsInv(r, n, schedule);
    var s := Run(r, Init(n), schedule);
    assert CountedSet(s.pcs) == InsideSet(s.pcs);
  }

  /** At most one process at a time works on the counter. */
  lemma MutualExclusion(r: Ranges, n: nat, schedule: seq<Turn>, p: nat, q: nat)
    requires Good(r) && p < n && q < n && p != q
    ensures !(Holds(Run(r, Init(n), schedule).pcs[p]) && Holds(Run(r, Init(n), schedule).pcs[q]))
  {
    hide Run;
    RunKeepsInv(r, n, schedule);
    OneHolder(r, Run(r, Init(n), schedule), p, q);
  }

  /** The value a leaving process reads is the number of processes that it leaves inside. */
  lemma LastOneOut(r: Ranges, n: nat, schedule: seq<Turn>, p: nat)
    requires Good(r) && p < n && Run(r, Init(n), schedule).pcs[p].LeaveRead?
    ensures Run(r, Init(n), schedule).pcs[p].value == |InsideSet(Run(r, Init(n), schedule).pcs)|
    ensures var s := Run(r, Init(n), schedule);
      s.pcs[p].value == 0 <==> forall q :: 0 <= q < n ==> !Within(s.pcs[q])
  {
    hide Run, LocksOk;
    RunKeepsInv(r, n, schedule);
    var s := Run(r, Init(n), schedule);
    assert FreshValue(s, s.pcs[p]) && Holds(s.pcs[p]);
    forall q | 0 <= q < |s.pcs| ensures Counted(s.pcs[q]) <==> Within(s.pcs[q]) {
      if q != p {
        OneHolder(r, s, p, q);
      }
    }
    assert CountedSet(s.pcs) == InsideSet(s.pcs);
    if InsideSet(s.pcs) != {} {
      var q :| q in InsideSet(s.pcs);
      assert Within(s.pcs[q]);
    } else {
      forall q | 0 <= q < n ensures !Within(s.pcs[q]) {
        assert q !in InsideSet(s.pcs);
      }
    }
  }

  /** One more turn of a schedule. */
  lemma OneMore(r: Ranges, n: nat, schedule: seq<Turn>, t: Turn) returns (longer: seq<Turn>)
    requires t.p < n && Move(r, Run(r, Init(n), schedule), t).Some?
    ensures longer == schedule + [t] && Run(r, Init(n), longer) == Moved(r, Run(r, Init(n), schedule), t)
  {
    longer := schedule + [t];
    assert longer[..|longer| - 1] == schedule;
  }

  /** The step after the value has been read, which never waits. With a value other than 0 the process keeps all it
      has locked, and has the whole range of the inode if no other process has locked a byte of it; with 0 it gives
      that range up. Nothing else changes. */
  lemma InodeKeptOrGivenUp(r: Ranges, s: State, t: Turn)
    requires t.p < |s.pcs| == |s.held| && s.pcs[t.p].LeaveRead?
    ensures Move(r, s, t) == Some(Moved(r, s, t))
    ensures var p, u := t.p, Moved(r, s, t);
      && u.counter == s.counter && u.pcs == s.pcs[p := LeaveSettled] && |u.held| == |s.held|
      && (forall q :: 0 <= q < |s.held| && q != p ==> u.held[q] == s.held[q])
      && u.held[p] - r.inode == s.held[p] - r.inode
      && (s.pcs[p].value == 0 ==> u.held[p] !! r.inode)
      && (s.pcs[p].value != 0 ==> s.held[p] <= u.held[p])
      && (s.pcs[p].value != 0 && (forall q :: 0 <= q < |s.held| && q != p ==> s.held[q] !! r.inode) ==>
            r.inode <= u.held[p])
  {
  }

  /** In every run, a process that leaves others inside gives up no byte it has locked for the inode; one that leaves
      nobody inside gives up all of them. */
  lemma InodeUnlockedLast(r: Ranges, n: nat, schedule: seq<Turn>, t: Turn)
    requires Good(r) && t.p < n && Run(r, Init(n), schedule).pcs[t.p].LeaveRead?
    ensures var s, u := Run(r, Init(n), schedule), Run(r, Init(n), schedule + [t]);
      if exists q :: 0 <= q < n && Within(s.pcs[q]) then s.held[t.p] <= u.held[t.p]
      else u.held[t.p] !! r.inode
  {
    hide Run, Moved, Within;
    LastOneOut(r, n, schedule, t.p);
    InodeKeptOrGivenUp(r, Run(r, Init(n), schedule), t);
    var longer := OneMore(r, n, schedule, t);
  }

  /** What a step does to a byte of the `.lock` inode that is no byte of the counter's range: only the step that
      enters and the one after the value has been read can lock it, and only the latter gives it up. */
  lemma InodeByte(r: Ranges, s: State, t: Turn, b: nat)
    requires Good(r) && t.p < |s.pcs| == |s.held| && Move(r, s, t).Some? && b in r.inode - r.block
    ensures var before, after := b in s.held[t.p], b in Move(r, s, t).value.held[t.p];
      var free := forall q :: 0 <= q < |s.held| && q != t.p ==> s.held[q] !! r.inode;
      && (s.pcs[t.p].Outside? ==> (after <==> before || free))
      && (s.pcs[t.p].LeaveRead? ==> (after <==> s.pcs[t.p].value != 0 && (before || free)))
      && (!s.pcs[t.p].Outside? && !s.pcs[t.p].LeaveRead? ==> (after <==> before))
  {
    assert b !in r.search;
  }

  /** What a step does to a byte of the range for searches that is no byte of the counter's range: it is locked when a
      search begins, and given up when one ends that does not keep it. */
  lemma SearchByte(r: Ranges, s: State, t: Turn, b: nat)
    requires Good(r) && t.p < |s.pcs| == |s.held| && Move(r, s, t).Some? && b in r.search - r.block
    ensures b in Move(r, s, t).value.held[t.p]
        <==> if s.pcs[t.p].Inside? && t.choice then true
             else if s.pcs[t.p].Searching? && !t.choice then false
             else b in s.held[t.p]
  {
    assert b !in r.inode;
  }

  /** How many stores of a run go up, and how many go down. */
  ghost function Stores(r: Ranges, s: State, schedule: seq<Turn>, up: bool): nat
    requires |s.pcs| == |s.held|
    decreases |schedule|
  {
    if schedule == [] then 0
    else
      var before, p := Run(r, s, schedule[..|schedule| - 1]), schedule[|schedule| - 1].p;
      Stores(r, s, schedule[..|schedule| - 1], up)
      + if p < |before.pcs| && (if up then before.pcs[p].EnterLoaded? else before.pcs[p].LeaveLoaded?) then 1 else 0
  }

  /** No update is lost: the counter is the number of stores on entering less the number of stores on leaving. */
  lemma {:induction false} NoUpdateLost(r: Ranges, n: nat, schedule: seq<Turn>)
    requires Good(r)
    ensures Run(r, Init(n), schedule).counter
         == Stores(r, Init(n), schedule, true) - Stores(r, Init(n), schedule, false)
    decreases |schedule|
  {
    hide LocksOk, CountedSet;
    if schedule != [] {
      var before, t := Run(r, Init(n), schedule[..|schedule| - 1]), schedule[|schedule| - 1];
      NoUpdateLost(r, n, schedule[..|schedule| - 1]);
      RunKeepsInv(r, n, schedule[..|schedule| - 1]);
      if t.p < |before.pcs| {
        assert FreshValue(before, before.pcs[t.p]);
      }
    }
  }

  /** How far a process is from being one that never waits: 0 if it does not; less, the more it has locked that others
      may wait for. */
  ghost function Rank(r: Ranges, s: State, p: nat): nat
    requires p < |s.pcs| == |s.held|
  {
    if !s.pcs[p].EnterTried? && !s.pcs[p].Inside? then 0
    else if s.held[p] * r.block != {} then 1
    else if s.held[p] * r.search != {} then 2
    else 3
  }

  /** Nobody waits in a circle: a process of rank 0 can go on; one that has to wait, waits for a process of lower
      rank, which has locked a byte of the range. */
  lemma NoDeadlock(r: Ranges, n: nat, schedule: seq<Turn>, t: Turn)
    requires Good(r) && t.p < n
    ensures var s := Run(r, Init(n), schedule);
      && (Rank(r, s, t.p) == 0 ==> Move(r, s, t).Some?)
      && (Move(r, s, t).None? ==>
            exists q :: 0 <= q < n && s.held[q] * Wanted(r, s.pcs[t.p], t.choice) != {}
               && Rank(r, s, q) < Rank(r, s, t.p))
  {
    hide Run;
    RunKeepsInv(r, n, schedule);
    var s := Run(r, Init(n), schedule);
    if Move(r, s, t).None? {
      var q :| 0 <= q < n && q != t.p && !(s.held[q] !! Wanted(r, s.pcs[t.p], t.choice));
      var b :| b in s.held[q] && b in Wanted(r, s.pcs[t.p], t.choice);
      LowerRank(r, s, t, q, b);
      assert b in s.held[q] * Wanted(r, s.pcs[t.p], t.choice);
    }
  }

  lemma LowerRank(r: Ranges, s: State, t: Turn, q: nat, b: nat)
    requires Good(r) && LocksOk(r, s) && t.p < |s.pcs| && q < |s.pcs| && q != t.p
    requires b in s.held[q] && b in Wanted(r, s.pcs[t.p], t.choice)
    ensures Rank(r, s, q) < Rank(r, s, t.p)
  {
    var mine, theirs := s.held[t.p], s.held[q];
    assert HeldOk(r, theirs, s.pcs[q]) && HeldOk(r, mine, s.pcs[t.p]) && mine !! theirs;
    if Rank(r, s, q) > 0 {
      if mine * r.block != {} {
        var c :| c in mine * r.block;
        BlockBytes(r, mine, s.pcs[t.p], c);
        BlockBytes(r, theirs, s.pcs[q], b);
        assert false;
      }
      if b in r.block {
        assert b in theirs * r.block;
      } else if mine * r.search != {} {
        assert false;
      } else {
        assert b in theirs * r.search;
      }
    }
  }

  /** A byte of the range for the counter, locked by a process that has not locked all of it, is one that the range
      shares with another one, and then the process has locked all that is shared. */
  lemma BlockBytes(r: Ranges, held: set<nat>, pc: Pc, b: nat)
    requires Good(r) && HeldOk(r, held, pc) && !Holds(pc) && b in held
    ensures b in r.block ==>
              || (b in r.inode && r.block * r.inode <= held && pc.EnterTried?)
              || (b in r.search && r.search <= held)
  {
    assert b !in held * (r.block - r.inode - r.search);
    if b in r.block && b in r.inode {
      assert b in held * r.block * r.inode;
    } else if b in r.block && b in r.search {
      assert b in held * r.block * r.search;
    }
  }

  /** Process `p` enters while nobody else has locked a byte of the range for the counter. */
  lemma Enters(r: Ranges, n: nat, schedule: seq<Turn>, p: nat) returns (longer: seq<Turn>)
    requires p < n && Run(r, Init(n), schedule).pcs[p].Outside? && Free(Run(r, Init(n), schedule).held, p, r.block)
    ensures var s, t := Run(r, Init(n), schedule), Run(r, Init(n), longer);
      && t.counter == s.counter + 1 && t.pcs == s.pcs[p := Inside] && |t.held| == |s.held|
      && (forall q :: 0 <= q < n && q != p ==> t.held[q] == s.held[q])
      && t.held[p] - r.inode == s.held[p] - r.block - r.inode
  {
    hide Run;
    longer := OneMore(r, n, schedule, Turn(p, false));
    longer := OneMore(r, n, longer, Turn(p, false));
    longer := OneMore(r, n, longer, Turn(p, false));
    longer := OneMore(r, n, longer, Turn(p, false));
    longer := OneMore(r, n, longer, Turn(p, false));
  }

  /** Process `p`, the only one inside, leaves. */
  lemma Leaves(r: Ranges, n: nat, schedule: seq<Turn>, p: nat) returns (longer: seq<Turn>)
    requires p < n && Run(r, Init(n), schedule).pcs[p].Inside? && Free(Run(r, Init(n), schedule).held, p, r.block)
    requires Run(r, Init(n), schedule).counter == 1
    ensures var s, t := Run(r, Init(n), schedule), Run(r, Init(n), longer);
      && t.counter == 0 && t.pcs == s.pcs[p := Outside] && |t.held| == |s.held|
      && (forall q :: 0 <= q < n && q != p ==> t.held[q] == s.held[q])
      && t.held[p] == s.held[p] - r.inode - r.block
  {
    hide Run;
    longer := OneMore(r, n, schedule, Turn(p, false));
    longer := OneMore(r, n, longer, Turn(p, false));
    longer := OneMore(r, n, longer, Turn(p, false));
    longer := OneMore(r, n, longer, Turn(p, false));
    longer := OneMore(r, n, longer, Turn(p, false));
    longer := OneMore(r, n, longer, Turn(p, false));
  }

  /** A process that keeps the lock of its search, as a creation under an existing name does, and leaves: another one
      that then wants to search has to wait for it, although it is outside, if and only if the range for searches is
      not part of the range for the counter. */
  lemma SearchKept(r: Ranges) returns (schedule: seq<Turn>)
    requires Good(r)
    ensures var s := Run(r, Init(2), schedule);
      && s.pcs == [Outside, Inside]
      && (Move(r, s, Turn(1, true)).None? <==> !(r.search <= r.block))
  {
    hide Run;
    schedule := [];
    RunNothing(r, 2);
    schedule := Enters(r, 2, schedule, 0);
    KeptPart(r, Run(r, Init(2), schedule).held[0]);
    schedule := OneMore(r, 2, schedule, Turn(0, true));
    schedule := OneMore(r, 2, schedule, Turn(0, true));
    schedule := Leaves(r, 2, schedule, 0);
    schedule := Enters(r, 2, schedule, 1);
    KeptBytes(r, Run(r, Init(2), schedule));
  }

  lemma KeptPart(r: Ranges, held: set<nat>)
    requires Good(r) && held - r.inode == {} - r.block - r.inode
    ensures held + r.search - r.inode - r.block == r.search - r.block
  {
    forall b | b in held ensures b in r.inode {
      assert b !in held - r.inode;
    }
  }

  lemma RunNothing(r: Ranges, n: nat)
    ensures Run(r, Init(n), []) == Init(n)
  {
  }

  lemma KeptBytes(r: Ranges, s: State)
    requires |s.pcs| == |s.held| == 2 && s.pcs[1].Inside? && s.held[0] == r.search - r.block
    ensures Move(r, s, Turn(1, true)).None? <==> !(r.search <= r.block)
  {
    if !(r.search <= r.block) {
      var b :| b in r.search && b !in r.block;
      assert b in s.held[0];
    } else {
      assert s.held[0] == {};
    }
  }
}
