/** Transactions under the tree's read/write lock (src/txn.c, src/btree.c). The operations of
    the tree are atomic steps on its map. */
module Transactions {
  import opened Comparator
  import opened Pages
  import opened Contents
  import opened Runs

  datatype Mode = ReadOnly | ReadWrite

  /** What can be called inside a transaction: the operations of the tree, and the reads of a
      cursor, some function of the map at that moment. In a read-only transaction that may be
      any step of a cursor, for the map stays as it is; in a read-write one it is a whole scan,
      for an open cursor keeps its copy of a page that a write may change. */
  datatype TxnOp = Plain(op: Op) | Look(see: map<Key, Value> -> seq<(Key, Value)>)

  /** A write in a read-only transaction is refused with CORRUPTED. */
  datatype Answer = Answered(reply: Reply) | Seen(entries: seq<(Key, Value)>) | Refused

  /** Transactions are numbered in the order in which they got the lock. */
  type TxnId = nat

  datatype Event =
    | Began(mode: Mode)
    | Called(t: TxnId, op: TxnOp, answer: Answer)
    | Finished(t: TxnId, committed: bool)

  /** The tree's map, its lock, and the transactions: all that began, and the active ones. */
  datatype State = State(m: map<Key, Value>, readers: nat, writer: bool, started: seq<Mode>, live: set<TxnId>)

  predicate Permitted(mode: Mode, op: TxnOp) {
    mode == ReadWrite || op.Look? || op.op.GetOp?
  }

  function AnswerOn(m: map<Key, Value>, mode: Mode, op: TxnOp): Answer {
    if !Permitted(mode, op) then Refused
    else
      match op
      case Plain(o) => Answered(MapReply(m, o))
      case Look(see) => Seen(see(m))
  }

  function EffectOn(m: map<Key, Value>, mode: Mode, op: TxnOp): map<Key, Value> {
    if Permitted(mode, op) && op.Plain? then MapStep(m, op.op) else m
  }

  /** Getting the lock waits for writers, and to write also for readers. */
  predicate LockFree(s: State, mode: Mode) {
    !s.writer && (mode == ReadWrite ==> s.readers == 0)
  }

  predicate Started(s: State, t: TxnId) {
    t < |s.started|
  }

  /** The event can happen now, and a call gives this answer. Commit and abort free the handle,
      so there are no calls after them. */
  predicate Enabled(s: State, e: Event) {
    match e
    case Began(mode) => LockFree(s, mode)
    case Called(t, op, answer) =>
      t in s.live && Started(s, t) && answer == AnswerOn(s.m, s.started[t], op)
    case Finished(t, _) => t in s.live
  }

  /** The lock is released whichever way it is held. */
  function Unlock(s: State): State {
    if s.writer then s.(writer := false) else if s.readers > 0 then s.(readers := s.readers - 1) else s
  }

  function Next(s: State, e: Event): State {
    match e
    case Began(mode) =>
      var t := |s.started|;
      var s' := s.(started := s.started + [mode], live := s.live + {t});
      if mode == ReadOnly then s'.(readers := s.readers + 1) else s'.(writer := true)
    case Called(t, op, _) => if Started(s, t) then s.(m := EffectOn(s.m, s.started[t], op)) else s
    case Finished(t, _) => Unlock(s).(live := s.live - {t})
  }

  function Initial(m: map<Key, Value>): State {
    State(m, 0, false, [], {})
  }

  function Final(m: map<Key, Value>, h: seq<Event>): State {
    if h == [] then Initial(m) else Next(Final(m, h[..|h| - 1]), h[|h| - 1])
  }

  /** A history that the lock admits, with the answers the transactions got. */
  predicate Legal(m: map<Key, Value>, h: seq<Event>) {
    h == [] || (Legal(m, h[..|h| - 1]) && Enabled(Final(m, h[..|h| - 1]), h[|h| - 1]))
  }

  // ---------------------------------------------------------------- the lock

  ghost function Readers(s: State): set<TxnId> {
    set t | t in s.live && Started(s, t) && s.started[t] == ReadOnly
  }

  /** The lock counts the active transactions; an active transaction has seen no writer begin
      since, and an active writer is the latest transaction of all. */
  ghost predicate Locked(s: State) {
    && (forall t :: t in s.live ==> Started(s, t))
    && s.readers == |Readers(s)|
    && (s.writer <==> exists t :: t in s.live && Started(s, t) && s.started[t] == ReadWrite)
    && (forall t, u :: t in s.live && t < u < |s.started| ==> s.started[t] == ReadOnly && s.started[u] == ReadOnly)
  }

  lemma LockedNext(s: State, e: Event)
    requires Locked(s) && Enabled(s, e)
    ensures Locked(Next(s, e))
  {
    var s' := Next(s, e);
    match e
    case Began(mode) => BeganLocked(s, mode, s');
    case Called(t, op, answer) => SameLock(s, s');
    case Finished(t, committed) => FinishedLocked(s, t, s');
  }

  lemma SameLock(s: State, s': State)
    requires Locked(s) && s' == s.(m := s'.m)
    ensures Locked(s')
  {
    assert Readers(s') == Readers(s);
    forall t | t in s'.live
      ensures Started(s', t)
    {
      assert Started(s, t);
    }
    if s.writer {
      var t :| t in s.live && Started(s, t) && s.started[t] == ReadWrite;
      assert t in s'.live && Started(s', t) && s'.started[t] == ReadWrite;
    }
  }

  lemma BeganLocked(s: State, mode: Mode, s': State)
    requires Locked(s) && LockFree(s, mode) && s' == Next(s, Began(mode))
    ensures Locked(s')
  {
    forall u | u in s.live
      ensures Started(s, u) && s.started[u] == ReadOnly && u in Readers(s)
    {
    }
    if mode == ReadOnly {
      BeganReader(s, s');
    } else {
      assert s.live == {};
      BeganWriter(s, s');
    }
  }

  lemma BeganReader(s: State, s': State)
    requires Locked(s) && !s.writer && s' == Next(s, Began(ReadOnly))
    requires forall u :: u in s.live ==> Started(s, u) && s.started[u] == ReadOnly
    ensures Locked(s')
  {
    hide Readers;
    var t := |s.started|;
    OneReaderMore(s, s');
    forall u | u in s'.live
      ensures Started(s', u) && s'.started[u] == ReadOnly
    {
    }
    forall u, w | u in s'.live && u < w < |s'.started|
      ensures s'.started[u] == ReadOnly && s'.started[w] == ReadOnly
    {
      if w < t {
        assert s.started[w] == ReadOnly;
      }
    }
  }

  lemma OneReaderMore(s: State, s': State)
    requires |s.started| !in s.live && s' == Next(s, Began(ReadOnly))
    requires forall u :: u in s.live ==> Started(s, u)
    ensures |Readers(s')| == |Readers(s)| + 1
  {
    assert Readers(s') == Readers(s) + {|s.started|};
  }

  lemma BeganWriter(s: State, s': State)
    requires Locked(s) && !s.writer && s.readers == 0 && s.live == {} && s' == Next(s, Began(ReadWrite))
    ensures Locked(s')
  {
    var t := |s.started|;
    assert s'.live == {t};
    assert s'.started[t] == ReadWrite;
    assert Started(s', t);
    assert Readers(s') == {};
  }

  lemma FinishedLocked(s: State, t: TxnId, s': State)
    requires Locked(s) && t in s.live && s' == Unlock(s).(live := s.live - {t})
    ensures Locked(s')
  {
    if s.started[t] == ReadWrite {
      assert s.writer;
      assert Readers(s') == Readers(s);
    } else {
      assert t in Readers(s);
      assert Readers(s') == Readers(s) - {t};
      assert !s.writer by {
        if u :| u in s.live && Started(s, u) && s.started[u] == ReadWrite {
          assert false;
        }
      }
    }
  }

  /** Who gets the lock: a reader next to readers only, a writer next to nobody. */
  lemma Admission(s: State)
    requires Locked(s)
    ensures LockFree(s, ReadOnly) <==> forall t :: t in s.live ==> Started(s, t) && s.started[t] == ReadOnly
    ensures LockFree(s, ReadWrite) <==> s.live == {}
  {
    if s.live != {} && !s.writer {
      var t :| t in s.live;
      assert Started(s, t);
      assert t in Readers(s);
    }
    if s.live == {} {
      assert Readers(s) == {};
    }
  }

  /** What the lock looks like while transaction `t` is active. */
  lemma Held(m: map<Key, Value>, h: seq<Event>, t: TxnId)
    requires Legal(m, h) && t in Final(m, h).live
    ensures var s := Final(m, h);
      && Started(s, t) && (s.writer <==> s.started[t] == ReadWrite) && (s.started[t] == ReadOnly ==> s.readers > 0)
  {
    hide SerialSoFar, NoneYet, Legal;
    Serializable(m, h);
    var s := Final(m, h);
    hide Final;
    assert Started(s, t);
    if s.started[t] == ReadOnly {
      assert t in Readers(s);
    }
  }

  // ---------------------------------------------------------------- one at a time

  /** The operations a transaction called. */
  function OpsOf(h: seq<Event>, t: TxnId): seq<TxnOp> {
    if h == [] then []
    else
      var n := |h| - 1;
      if h[n].Called? && h[n].t == t then OpsOf(h[..n], t) + [h[n].op] else OpsOf(h[..n], t)
  }

  /** The answers it got to them. */
  function AnswersOf(h: seq<Event>, t: TxnId): seq<Answer> {
    if h == [] then []
    else
      var n := |h| - 1;
      if h[n].Called? && h[n].t == t then AnswersOf(h[..n], t) + [h[n].answer] else AnswersOf(h[..n], t)
  }

  /** The map after a transaction that has it to itself. */
  function RunAlone(m: map<Key, Value>, mode: Mode, ops: seq<TxnOp>): map<Key, Value> {
    if ops == [] then m else EffectOn(RunAlone(m, mode, ops[..|ops| - 1]), mode, ops[|ops| - 1])
  }

  function AloneAnswers(m: map<Key, Value>, mode: Mode, ops: seq<TxnOp>): (r: seq<Answer>)
    ensures |r| == |ops|
  {
    if ops == [] then []
    else
      var n := |ops| - 1;
      AloneAnswers(m, mode, ops[..n]) + [AnswerOn(RunAlone(m, mode, ops[..n]), mode, ops[n])]
  }

  /** The map after the first `k` transactions, one after the other. */
  function SerialMap(m: map<Key, Value>, h: seq<Event>, modes: seq<Mode>, k: nat): map<Key, Value>
    requires k <= |modes|
  {
    if k == 0 then m else RunAlone(SerialMap(m, h, modes, k - 1), modes[k - 1], OpsOf(h, k - 1))
  }

  /** A read-only transaction changes nothing, whatever it calls. */
  lemma {:induction false} ReadOnlyAlone(m: map<Key, Value>, ops: seq<TxnOp>)
    ensures RunAlone(m, ReadOnly, ops) == m
  {
    if ops != [] {
      ReadOnlyAlone(m, ops[..|ops| - 1]);
    }
  }

  /** Transactions without operations of their own in `h` are no different there. */
  lemma {:induction false} SerialSame(m: map<Key, Value>, h: seq<Event>, h': seq<Event>, modes: seq<Mode>,
                                      modes': seq<Mode>, k: nat)
    requires k <= |modes| <= |modes'| && modes == modes'[..|modes|]
    requires forall t: TxnId :: t < k ==> OpsOf(h', t) == OpsOf(h, t) || modes[t] == ReadOnly
    ensures SerialMap(m, h', modes', k) == SerialMap(m, h, modes, k)
  {
    if k > 0 {
      SerialSame(m, h, h', modes, modes', k - 1);
      if modes[k - 1] == ReadOnly {
        ReadOnlyAlone(SerialMap(m, h, modes, k - 1), OpsOf(h, k - 1));
        ReadOnlyAlone(SerialMap(m, h, modes, k - 1), OpsOf(h', k - 1));
      }
    }
  }

  /** Read-only transactions in a row leave the map as it is. */
  lemma {:induction false} SerialReadOnly(m: map<Key, Value>, h: seq<Event>, modes: seq<Mode>, i: nat, k: nat)
    requires i <= k <= |modes| && forall t :: i <= t < k ==> modes[t] == ReadOnly
    ensures SerialMap(m, h, modes, k) == SerialMap(m, h, modes, i)
  {
    if i < k {
      SerialReadOnly(m, h, modes, i, k - 1);
      ReadOnlyAlone(SerialMap(m, h, modes, k - 1), OpsOf(h, k - 1));
    }
  }

  /** The answers of transaction `t` are those of the serial execution. */
  ghost predicate SerialAnswers(m: map<Key, Value>, h: seq<Event>, modes: seq<Mode>, t: TxnId)
    requires t < |modes|
  {
    AnswersOf(h, t) == AloneAnswers(SerialMap(m, h, modes, t), modes[t], OpsOf(h, t))
  }

  /** The map and all answers are those of the serial execution. */
  ghost predicate SerialSoFar(m: map<Key, Value>, h: seq<Event>, now: map<Key, Value>, modes: seq<Mode>) {
    now == SerialMap(m, h, modes, |modes|) && forall t :: 0 <= t < |modes| ==> SerialAnswers(m, h, modes, t)
  }

  /** Transactions that have not begun have called nothing. */
  ghost predicate NoneYet(h: seq<Event>, from: TxnId) {
    forall t: TxnId :: t >= from ==> OpsOf(h, t) == [] && AnswersOf(h, t) == []
  }

  /** An event that is no call leaves every transaction's operations as they were. */
  lemma SameCalls(h: seq<Event>, e: Event)
    requires !e.Called?
    ensures forall t: TxnId :: OpsOf(h + [e], t) == OpsOf(h, t) && AnswersOf(h + [e], t) == AnswersOf(h, t)
  {
    assert (h + [e])[..|h|] == h;
  }

  lemma OneCall(h: seq<Event>, t: TxnId, op: TxnOp, answer: Answer)
    ensures var h' := h + [Called(t, op, answer)];
      && OpsOf(h', t) == OpsOf(h, t) + [op] && AnswersOf(h', t) == AnswersOf(h, t) + [answer]
      && forall u: TxnId :: u != t ==> OpsOf(h', u) == OpsOf(h, u) && AnswersOf(h', u) == AnswersOf(h, u)
  {
    assert (h + [Called(t, op, answer)])[..|h|] == h;
  }

  lemma QuietSerial(m: map<Key, Value>, h: seq<Event>, e: Event, now: map<Key, Value>, modes: seq<Mode>)
    requires SerialSoFar(m, h, now, modes) && NoneYet(h, |modes|)
    requires !e.Called?
    ensures SerialSoFar(m, h + [e], now, modes) && NoneYet(h + [e], |modes|)
  {
    hide OpsOf, AnswersOf, SerialMap, AloneAnswers;
    SameCalls(h, e);
    SerialSame(m, h, h + [e], modes, modes, |modes|);
    forall t: TxnId | t < |modes|
      ensures SerialAnswers(m, h + [e], modes, t)
    {
      SerialSame(m, h, h + [e], modes, modes, t);
      assert SerialAnswers(m, h, modes, t);
    }
  }

  lemma BeganSerial(m: map<Key, Value>, h: seq<Event>, now: map<Key, Value>, modes: seq<Mode>, mode: Mode)
    requires SerialSoFar(m, h, now, modes) && NoneYet(h, |modes|)
    ensures SerialSoFar(m, h + [Began(mode)], now, modes + [mode]) && NoneYet(h + [Began(mode)], |modes| + 1)
  {
    hide OpsOf, AnswersOf;
    var h' := h + [Began(mode)];
    SameCalls(h, Began(mode));
    forall k: nat | k <= |modes|
      ensures SerialMap(m, h', modes + [mode], k) == SerialMap(m, h, modes, k)
    {
      SerialSame(m, h, h', modes, modes + [mode], k);
    }
    hide SerialMap;
    assert OpsOf(h', |modes|) == [] && AnswersOf(h', |modes|) == [];
    SerialLast(m, h', modes + [mode]);
    forall t: TxnId | t < |modes| + 1
      ensures SerialAnswers(m, h', modes + [mode], t)
    {
      assert t < |modes| ==> SerialAnswers(m, h, modes, t);
    }
  }

  lemma SerialLast(m: map<Key, Value>, h: seq<Event>, modes: seq<Mode>)
    requires modes != []
    ensures var n := |modes| - 1;
      SerialMap(m, h, modes, |modes|) == RunAlone(SerialMap(m, h, modes, n), modes[n], OpsOf(h, n))
  {
  }

  lemma AloneStep(m: map<Key, Value>, mode: Mode, ops: seq<TxnOp>, op: TxnOp)
    ensures RunAlone(m, mode, ops + [op]) == EffectOn(RunAlone(m, mode, ops), mode, op)
    ensures AloneAnswers(m, mode, ops + [op]) ==
      AloneAnswers(m, mode, ops) + [AnswerOn(RunAlone(m, mode, ops), mode, op)]
  {
    assert (ops + [op])[..|ops|] == ops;
  }

  /** A call of the latest transaction, or of a read-only one that no writer followed. */
  lemma CalledSerial(m: map<Key, Value>, h: seq<Event>, now: map<Key, Value>, modes: seq<Mode>, t: TxnId, op: TxnOp)
    requires SerialSoFar(m, h, now, modes) && NoneYet(h, |modes|) && t < |modes|
    requires t == |modes| - 1 || forall u :: t <= u < |modes| ==> modes[u] == ReadOnly
    ensures var h' := h + [Called(t, op, AnswerOn(now, modes[t], op))];
      SerialSoFar(m, h', EffectOn(now, modes[t], op), modes) && NoneYet(h', |modes|)
  {
    hide OpsOf, AnswersOf, SerialMap, RunAlone, AloneAnswers, MapStep, MapReply;
    var answer := AnswerOn(now, modes[t], op);
    var h' := h + [Called(t, op, answer)];
    OneCall(h, t, op, answer);
    forall k: nat | k <= |modes| && (k <= t || modes[t] == ReadOnly)
      ensures SerialMap(m, h', modes, k) == SerialMap(m, h, modes, k)
    {
      SerialSame(m, h, h', modes, modes, k);
    }
    var base := SerialMap(m, h, modes, t);
    AloneStep(base, modes[t], OpsOf(h, t), op);
    NowIs(m, h, now, modes, t);
    if modes[t] == ReadOnly {
      ReadOnlyEffect(now, op);
    } else {
      SerialLast(m, h', modes);
    }
    forall u: TxnId | u < |modes|
      ensures SerialAnswers(m, h', modes, u)
    {
      assert SerialAnswers(m, h, modes, u);
    }
  }

  lemma ReadOnlyEffect(m: map<Key, Value>, op: TxnOp)
    ensures EffectOn(m, ReadOnly, op) == m
  {
  }

  /** Such a transaction sees the current map after its own operations. */
  lemma NowIs(m: map<Key, Value>, h: seq<Event>, now: map<Key, Value>, modes: seq<Mode>, t: TxnId)
    requires now == SerialMap(m, h, modes, |modes|) && t < |modes|
    requires t == |modes| - 1 || forall u :: t <= u < |modes| ==> modes[u] == ReadOnly
    ensures now == RunAlone(SerialMap(m, h, modes, t), modes[t], OpsOf(h, t))
  {
    hide OpsOf, RunAlone;
    SerialLast(m, h, modes);
    if t < |modes| - 1 {
      SerialReadOnly(m, h, modes, t, |modes|);
      ReadOnlyAlone(SerialMap(m, h, modes, t), OpsOf(h, t));
    }
  }

  /** Every interleaving the lock admits is serializable: running the transactions one at a
      time, in the order in which they got the lock, gives the same map and the same answers.
      Aborted transactions are no exception: their writes stay. */
  lemma {:induction false} Serializable(m: map<Key, Value>, h: seq<Event>)
    requires Legal(m, h)
    ensures var s := Final(m, h);
      Locked(s) && SerialSoFar(m, h, s.m, s.started) && NoneYet(h, |s.started|)
  {
    hide Locked, SerialSoFar, NoneYet, OpsOf, AnswersOf, AnswerOn, EffectOn;
    if h == [] {
      NothingYet(m);
    } else {
      var n := |h| - 1;
      Serializable(m, h[..n]);
      var s, e := Final(m, h[..n]), h[n];
      LockedNext(s, e);
      assert h == h[..n] + [e];
      match e
      case Began(mode) => BeganSerial(m, h[..n], s.m, s.started, mode);
      case Called(t, op, answer) =>
        LiveFollowed(s, t);
        CalledSerial(m, h[..n], s.m, s.started, t, op);
      case Finished(t, committed) => QuietSerial(m, h[..n], e, s.m, s.started);
    }
  }

  lemma LiveFollowed(s: State, t: TxnId)
    requires Locked(s) && t in s.live
    ensures Started(s, t)
    ensures t == |s.started| - 1 || forall u :: t <= u < |s.started| ==> s.started[u] == ReadOnly
  {
    if t < |s.started| - 1 {
      assert s.started[t + 1] == ReadOnly;
    }
  }

  lemma NothingYet(m: map<Key, Value>)
    ensures Locked(Initial(m)) && SerialSoFar(m, [], m, []) && NoneYet([], 0)
  {
    assert Readers(Initial(m)) == {};
  }

  /** A read-only transaction sees one unchanging map: the one it began with. */
  lemma {:induction false} Snapshot(m: map<Key, Value>, h: seq<Event>, t: TxnId, i: nat)
    requires Legal(m, h) && t < |Final(m, h).started| && Final(m, h).started[t] == ReadOnly && i < |OpsOf(h, t)|
    ensures |AnswersOf(h, t)| == |OpsOf(h, t)|
    ensures AnswersOf(h, t)[i] == AnswerOn(SerialMap(m, h, Final(m, h).started, t), ReadOnly, OpsOf(h, t)[i])
  {
    hide Locked, Final, NoneYet, Legal;
    Serializable(m, h);
    var modes := Final(m, h).started;
    assert SerialAnswers(m, h, modes, t);
    SnapshotAnswers(SerialMap(m, h, modes, t), OpsOf(h, t), i);
  }

  lemma {:induction false} SnapshotAnswers(m: map<Key, Value>, ops: seq<TxnOp>, i: nat)
    requires i < |ops|
    ensures AloneAnswers(m, ReadOnly, ops)[i] == AnswerOn(m, ReadOnly, ops[i])
  {
    var n := |ops| - 1;
    if i < n {
      SnapshotAnswers(m, ops[..n], i);
    } else {
      ReadOnlyAlone(m, ops[..n]);
    }
  }

  // ---------------------------------------------------------------- the code

  /** The tree with its lock. */
  class SharedTree {
    var m: map<Key, Value>
    var readers: nat
    var writer: bool
    ghost var initial: map<Key, Value>
    /** Everything that happened, in order. */
    ghost var history: seq<Event>

    ghost function Now(): State
      reads this
    {
      Final(initial, history)
    }

    ghost predicate Valid()
      reads this
    {
      Legal(initial, history) && m == Now().m && readers == Now().readers && writer == Now().writer
    }

    constructor (m: map<Key, Value>)
      ensures Valid() && history == [] && initial == m && this.m == m
    {
      this.m, readers, writer := m, 0, false;
      initial, history := m, [];
    }

    /** btree_unlock. */
    method Unlock()
      modifies this`readers, this`writer
      ensures writer == false
      ensures readers == if old(writer) || old(readers) == 0 then old(readers) else old(readers) - 1
    {
      if writer {
        writer := false;
      } else if readers > 0 {
        readers := readers - 1;
      }
    }
  }

  class Txn {
    const tree: SharedTree
    const mode: Mode
    var active: bool
    ghost const id: TxnId

    ghost predicate Valid()
      reads this, tree
    {
      && tree.Valid() && Started(tree.Now(), id) && tree.Now().started[id] == mode
      && (active <==> id in tree.Now().live)
    }

    /** txn_begin, at the moment it gets the lock. */
    constructor (tree: SharedTree, mode: Mode)
      requires tree.Valid() && LockFree(tree.Now(), mode)
      modifies tree
      ensures Valid() && active && this.tree == tree && this.mode == mode
      ensures id == |old(tree.Now()).started|
      ensures tree.history == old(tree.history) + [Began(mode)] && tree.initial == old(tree.initial)
        && tree.m == old(tree.m)
      ensures !old(tree.writer) && tree.readers == old(tree.readers) + (if mode == ReadOnly then 1 else 0)
      ensures mode == ReadWrite ==> old(tree.readers) == 0 && tree.writer
      ensures mode == ReadOnly ==> !tree.writer
    {
      this.tree, this.mode := tree, mode;
      active := true;
      id := |tree.Now().started|;
      new;
      Appended(tree.initial, tree.history, Began(mode));
      if mode == ReadOnly {
        tree.readers := tree.readers + 1;
      } else {
        tree.writer := true;
      }
      tree.history := tree.history + [Began(mode)];
    }

    /** txn_commit: releases the lock and frees the handle; NOT_FOUND for a null handle. */
    static method Commit(txn: Txn?) returns (err: Error)
      requires txn != null ==> txn.Valid() && txn.active
      modifies if txn == null then {} else {txn, txn.tree as object}
      ensures err == if txn == null then NotFound else Ok
      ensures txn != null ==>
        && txn.Valid() && !txn.active && txn.tree.m == old(txn.tree.m) && txn.tree.initial == old(txn.tree.initial)
        && txn.tree.history == old(txn.tree.history) + [Finished(txn.id, true)]
        && !txn.tree.writer && (txn.mode == ReadWrite ==> txn.tree.readers == old(txn.tree.readers))
        && (txn.mode == ReadOnly ==> txn.tree.readers == old(txn.tree.readers) - 1)
    {
      if txn == null || !txn.active {
        return NotFound;
      }
      txn.Release(true);
      return Ok;
    }

    /** txn_abort: the same, without an answer; the writes of the transaction stay. */
    static method Abort(txn: Txn?)
      requires txn != null ==> txn.Valid() && txn.active
      modifies if txn == null then {} else {txn, txn.tree as object}
      ensures txn != null ==>
        && txn.Valid() && !txn.active && txn.tree.m == old(txn.tree.m) && txn.tree.initial == old(txn.tree.initial)
        && txn.tree.history == old(txn.tree.history) + [Finished(txn.id, false)]
        && !txn.tree.writer && (txn.mode == ReadWrite ==> txn.tree.readers == old(txn.tree.readers))
        && (txn.mode == ReadOnly ==> txn.tree.readers == old(txn.tree.readers) - 1)
    {
      if txn == null || !txn.active {
        return;
      }
      txn.Release(false);
    }

    method Release(ghost committed: bool)
      requires Valid() && active
      modifies this, tree
      ensures Valid() && !active && tree.m == old(tree.m) && tree.initial == old(tree.initial)
      ensures tree.history == old(tree.history) + [Finished(id, committed)]
      ensures !tree.writer && (mode == ReadWrite ==> tree.readers == old(tree.readers))
      ensures mode == ReadOnly ==> tree.readers == old(tree.readers) - 1
    {
      Held(tree.initial, tree.history, id);
      Appended(tree.initial, tree.history, Finished(id, committed));
      active := false;
      tree.Unlock();
      tree.history := tree.history + [Finished(id, committed)];
    }

    /** txn_get, txn_put, txn_delete, and the reads of a cursor of txn_cursor_create; nothing
        but NOT_FOUND, or no cursor, for a null handle. */
    static method Call(txn: Txn?, op: TxnOp) returns (err: Error, answer: Answer)
      requires txn != null ==> txn.Valid() && txn.active
      modifies if txn == null then {} else {txn.tree}
      ensures txn == null ==> err == NotFound
      ensures txn != null ==>
        && txn.Valid() && txn.active && answer == AnswerOn(old(txn.tree.m), txn.mode, op)
        && err == (if answer == Refused then Corrupted else if answer == Answered(Missing) then NotFound else Ok)
        && txn.tree.m == EffectOn(old(txn.tree.m), txn.mode, op) && txn.tree.initial == old(txn.tree.initial)
        && txn.tree.history == old(txn.tree.history) + [Called(txn.id, op, answer)]
      ensures txn != null && op.Plain? ==>
        var m, k, m' := old(txn.tree.m), op.op.key, txn.tree.m;
        && (op.op.GetOp? ==>
              && m' == m
              && if k in m then err == Ok && answer == Answered(Found(m[k]))
                 else err == NotFound && answer == Answered(Missing))
        && (!op.op.GetOp? && txn.mode == ReadOnly ==> m' == m && err == Corrupted && answer == Refused)
        && (op.op.PutOp? && txn.mode == ReadWrite ==>
              m' == m[k := op.op.val] && err == Ok && answer == Answered(Done))
        && (op.op.DeleteOp? && txn.mode == ReadWrite ==>
              && m' == m - {k}
              && if k in m then err == Ok && answer == Answered(Done)
                 else err == NotFound && answer == Answered(Missing))
      ensures txn != null && op.Look? ==>
        err == Ok && answer == Seen(op.see(old(txn.tree.m))) && txn.tree.m == old(txn.tree.m)
    {
      err, answer := NotFound, Refused;
      if txn == null || !txn.active {
        return;
      }
      var tree := txn.tree;
      if txn.mode != ReadWrite && op.Plain? && !op.op.GetOp? {
        err := Corrupted;
      } else {
        match op {
          case Look(see) =>
            err, answer := Ok, Seen(see(tree.m));
          case Plain(o) =>
            answer := Answered(MapReply(tree.m, o));
            err := if answer == Answered(Missing) then NotFound else Ok;
        }
      }
      ghost var e := Called(txn.id, op, answer);
      Appended(tree.initial, tree.history, e);
      if answer != Refused && op.Plain? {
        tree.m := MapStep(tree.m, op.op);
      }
      tree.history := tree.history + [e];
    }
  }

  lemma Appended(m: map<Key, Value>, h: seq<Event>, e: Event)
    requires Legal(m, h) && Enabled(Final(m, h), e)
    ensures Legal(m, h + [e]) && Final(m, h + [e]) == Next(Final(m, h), e)
  {
    assert (h + [e])[..|h|] == h;
  }
}
