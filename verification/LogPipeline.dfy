/** The device-log pipeline: producers, the log thread and the saved-log thread over a locked queue, a
    database and an unreliable send, as a state machine over their atomic sections. */
module LogPipeline {
  import opened DeviceLog

  const MEDIA_AIRDROP := 0xC000

  /** A database row. Rows are addressed by create time and sequence number. */
  datatype Row = Row(sequence: nat, time: int, log: Log)
  {
    function Key(): (int, nat) {
      (time, sequence)
    }
  }

  datatype LogThread = Waiting | Processing(batch: seq<Log>, index: nat) | Saving(batch: seq<Log>, index: nat)
  datatype SavedThread = Idle | Sending(rows: seq<Row>, index: nat) | Erasing(rows: seq<Row>, index: nat)

  datatype State = State(queue: seq<Log>, signalled: bool, logThread: LogThread, savedThread: SavedThread,
                         rows: seq<Row>, sequence: nat, cache: seq<Log>, sent: seq<Log>, dropped: seq<Log>)

  datatype Step =
    | Add(log: Log)                       // addDeviceLog
    | Take                                // fnLog: the locked section
    | Process(now: int, accepted: bool)   // fnLog: one turn of the batch loop; `accepted` is the send's answer
    | Save                                // saveDeviceLog: one turn
    | Load(batch: seq<Row>)               // fnSavedLog: getAll while the agent is registered
    | Resend(accepted: bool)              // sendSavedDeviceLog: the send of one turn
    | EraseSent                           // sendSavedDeviceLog: the erase of one turn

  // ---- The database ----

  /** `erase`: deletes every row with the key. */
  function Without(rows: seq<Row>, key: (int, nat)): seq<Row> {
    if rows == [] then []
    else Without(rows[..|rows| - 1], key) + if rows[|rows| - 1].Key() == key then [] else [rows[|rows| - 1]]
  }

  function Logs(rows: seq<Row>): multiset<Log> {
    if rows == [] then multiset{} else Logs(rows[..|rows| - 1]) + multiset{rows[|rows| - 1].log}
  }

  ghost predicate KeysUnique(rows: seq<Row>) {
    forall i, j | 0 <= i < j < |rows| :: rows[i].Key() != rows[j].Key()
  }

  /** `getAll` returns the rows by ascending create time; rows of equal time come in any order. */
  ghost predicate IsSelection(batch: seq<Row>, rows: seq<Row>) {
    && multiset(batch) == multiset(rows)
    && forall i, j | 0 <= i < j < |batch| :: batch[i].time <= batch[j].time
  }

  class SQLiteStub {
    var rows: seq<Row>
    var sequence: nat

    constructor (rows: seq<Row>)
      ensures this.rows == rows && sequence == 0
    {
      this.rows, sequence := rows, 0;
    }

    method PushBack(log: Log)
      modifies this
      ensures sequence == old(sequence) + 1 && rows == old(rows) + [Row(sequence, log.time, log)]
    {
      sequence := sequence + 1;
      rows := rows + [Row(sequence, log.time, log)];
    }

    method Erase(sequence: nat, time: int)
      modifies this`rows
      ensures rows == Without(old(rows), (time, sequence))
    {
      var kept: seq<Row> := [];
      var i := 0;
      while i < |rows|
        invariant rows == old(rows) && 0 <= i <= |rows|
        invariant kept == Without(rows[..i], (time, sequence))
      {
        assert rows[..i + 1][..i] == rows[..i];
        if rows[i].Key() != (time, sequence) {
          kept := kept + [rows[i]];
        }
        i := i + 1;
      }
      assert rows[..i] == rows;
      rows := kept;
    }
  }

  // ---- The machine ----

  ghost predicate Enabled(s: State, step: Step) {
    match step
    case Add(_) => true
    case Take => s.logThread.Waiting? && s.signalled
    case Process(_, _) => s.logThread.Processing?
    case Save => s.logThread.Saving?
    case Load(batch) => s.savedThread.Idle? && IsSelection(batch, s.rows)
    case Resend(_) => s.savedThread.Sending?
    case EraseSent => s.savedThread.Erasing? && s.savedThread.index < |s.savedThread.rows|
  }

  /** One turn of the batch loop: AirDrop logs skip the duplicate filter; a failed send hands the rest of the
      batch, this log included, to the database. */
  function ProcessLog(s: State, now: int, accepted: bool): State
    requires s.logThread.Processing?
  {
    var Processing(batch, i) := s.logThread;
    if i >= |batch| then s.(logThread := Waiting)
    else
      var log := batch[i];
      var (duplicate, cache) := if log.key.policyType == MEDIA_AIRDROP then (false, s.cache) else Filter(s.cache, log, now);
      if duplicate then s.(cache := cache, dropped := s.dropped + [log], logThread := Processing(batch, i + 1))
      else if accepted then s.(cache := cache, sent := s.sent + [log], logThread := Processing(batch, i + 1))
      else s.(cache := cache, logThread := Saving(batch, i))
  }

  function SaveLog(s: State): State
    requires s.logThread.Saving?
  {
    var Saving(batch, i) := s.logThread;
    if i >= |batch| then s.(logThread := Waiting)
    else s.(rows := s.rows + [Row(s.sequence + 1, batch[i].time, batch[i])], sequence := s.sequence + 1,
            logThread := Saving(batch, i + 1))
  }

  function ResendRow(s: State, accepted: bool): State
    requires s.savedThread.Sending?
  {
    var Sending(rows, i) := s.savedThread;
    if i >= |rows| || !accepted then s.(savedThread := Idle)
    else s.(sent := s.sent + [rows[i].log], savedThread := Erasing(rows, i))
  }

  function Next(s: State, step: Step): State
    requires Enabled(s, step)
  {
    match step
    case Add(log) => s.(queue := s.queue + [log], signalled := true)
    case Take => s.(queue := [], signalled := false, logThread := if s.queue == [] then Waiting else Processing(s.queue, 0))
    case Process(now, accepted) => ProcessLog(s, now, accepted)
    case Save => SaveLog(s)
    case Load(batch) => s.(savedThread := Sending(batch, 0))
    case Resend(accepted) => ResendRow(s, accepted)
    case EraseSent =>
      var Erasing(rows, i) := s.savedThread;
      s.(rows := Without(s.rows, rows[i].Key()), savedThread := Sending(rows, i + 1))
  }

  function Added(step: Step): multiset<Log> {
    if step.Add? then multiset{step.log} else multiset{}
  }

  /** `CPIActionProcessDeviceLog` with the objects it works on; each method is one atomic section or one turn of
      a loop, and makes the step of the machine. */
  class DeviceLogProcess {
    const database: SQLiteStub
    const deviceMan: DeviceManager
    var deviceLog: seq<Log>
    var signalled: bool
    var logThread: LogThread
    var savedThread: SavedThread
    ghost var sent: seq<Log>
    ghost var dropped: seq<Log>

    ghost function Abs(): State
      reads this, database, deviceMan
    {
      State(deviceLog, signalled, logThread, savedThread, database.rows, database.sequence, deviceMan.deviceLogCache, sent, dropped)
    }

    constructor (oldRows: seq<Row>)
      ensures Abs() == State([], false, Waiting, Idle, oldRows, 0, [], [], [])
      ensures fresh(database) && fresh(deviceMan)
    {
      database := new SQLiteStub(oldRows);
      deviceMan := new DeviceManager();
      deviceLog, signalled, logThread, savedThread, sent, dropped := [], false, Waiting, Idle, [], [];
    }

    method AddDeviceLog(log: Log)
      modifies this`deviceLog, this`signalled
      ensures Abs() == Next(old(Abs()), Add(log))
    {
      signalled := true;
      deviceLog := deviceLog + [log];
    }

    /** The locked section of `fnLog`, entered once the queue is signalled. */
    method TakeBatch()
      requires Enabled(Abs(), Take)
      modifies this`deviceLog, this`signalled, this`logThread
      ensures Abs() == Next(old(Abs()), Take)
    {
      var batch: seq<Log> := [];
      if 0 < |deviceLog| {
        batch := deviceLog;
        deviceLog := [];
      }
      signalled := false;
      logThread := if batch == [] then Waiting else Processing(batch, 0);
    }

    /** One turn of the batch loop; `accepted` is the answer of the send, if it comes to that. */
    method BatchTurn(now: int, accepted: bool)
      requires Enabled(Abs(), Process(now, accepted))
      modifies this`logThread, this`sent, this`dropped, deviceMan
      ensures Abs() == Next(old(Abs()), Process(now, accepted))
    {
      var Processing(batch, index) := logThread;
      if index >= |batch| {
        logThread := Waiting;
        return;
      }
      var log := batch[index];
      if log.key.policyType != MEDIA_AIRDROP {
        var duplicate := deviceMan.IsDuplicatedDeviceLog(log, now);
        if duplicate {
          dropped := dropped + [log];
          logThread := Processing(batch, index + 1);
          return;
        }
      }
      if accepted {
        sent := sent + [log];
        logThread := Processing(batch, index + 1);
      } else {
        logThread := Saving(batch, index);
      }
    }

    /** One turn of `saveDeviceLog`. */
    method SaveTurn()
      requires Enabled(Abs(), Save)
      modifies this`logThread, database
      ensures Abs() == Next(old(Abs()), Save)
    {
      var Saving(batch, index) := logThread;
      if index >= |batch| {
        logThread := Waiting;
        return;
      }
      database.PushBack(batch[index]);
      logThread := Saving(batch, index + 1);
    }

    /** `sendSavedDeviceLog`, one turn up to the send. */
    method ResendTurn(accepted: bool)
      requires Enabled(Abs(), Resend(accepted))
      modifies this`savedThread, this`sent
      ensures Abs() == Next(old(Abs()), Resend(accepted))
    {
      var Sending(rows, index) := savedThread;
      if index >= |rows| || !accepted {
        savedThread := Idle;
        return;
      }
      sent := sent + [rows[index].log];
      savedThread := Erasing(rows, index);
    }

    /** The rest of that turn, after a successful send. */
    method EraseTurn()
      requires Enabled(Abs(), EraseSent)
      modifies this`savedThread, database
      ensures Abs() == Next(old(Abs()), EraseSent)
    {
      var Erasing(rows, index) := savedThread;
      database.Erase(rows[index].sequence, rows[index].time);
      savedThread := Sending(rows, index + 1);
    }
  }

  // ---- The places a log can be in ----

  function Pending(t: LogThread): seq<Log> {
    if t.Waiting? || t.index >= |t.batch| then [] else t.batch[t.index..]
  }

  /** The row that was sent and is about to be erased. */
  function Departing(t: SavedThread): multiset<Log> {
    if t.Erasing? && t.index < |t.rows| then multiset{t.rows[t.index].log} else multiset{}
  }

  /** All logs, each counted in the one place it is in. */
  function Everywhere(s: State): multiset<Log> {
    Total(Bag(s.queue), Bag(Pending(s.logThread)), Bag(s.sent), Bag(s.dropped),
          Logs(s.rows) - Departing(s.savedThread))
  }

  function Bag(logs: seq<Log>): multiset<Log> {
    multiset(logs)
  }

  function Total(queued: multiset<Log>, pending: multiset<Log>, sent: multiset<Log>, dropped: multiset<Log>,
                 stored: multiset<Log>): multiset<Log>
  {
    queued + pending + sent + dropped + stored
  }

  /** Sent, stored, or on its way to the database after a failed send. */
  ghost predicate InCustody(s: State, log: Log) {
    || log in s.sent
    || log in Logs(s.rows)
    || (s.logThread.Saving? && log in Pending(s.logThread))
  }

  ghost predicate AllFrom(logs: seq<Log>, epoch: int) {
    forall i | 0 <= i < |logs| :: logs[i].time >= epoch
  }

  /** Rows left from an earlier process are older than `epoch`; this process numbers its own rows upwards. */
  ghost predicate KeysBounded(rows: seq<Row>, sequence: nat, epoch: int) {
    forall i | 0 <= i < |rows| :: rows[i].time < epoch || rows[i].sequence <= sequence
  }

  /** The rows the saved-log thread still holds are in the database under their own keys. */
  ghost predicate HeldRows(s: State) {
    s.savedThread.Idle?
    || (&& s.savedThread.index <= |s.savedThread.rows|
        && KeysUnique(s.savedThread.rows)
        && forall j | s.savedThread.index <= j < |s.savedThread.rows| :: s.savedThread.rows[j] in s.rows)
  }

  ghost predicate Inv(s: State, epoch: int) {
    && (s.queue != [] ==> s.signalled)
    && AllFrom(s.queue, epoch) && AllFrom(Pending(s.logThread), epoch)
    && KeysUnique(s.rows) && KeysBounded(s.rows, s.sequence, epoch)
    && HeldRows(s)
    && (s.savedThread.Erasing? && s.savedThread.index < |s.savedThread.rows| ==>
          s.savedThread.rows[s.savedThread.index].log in s.sent)
    && (forall i | 0 <= i < |s.cache| :: InCustody(s, s.cache[i]))
    && (forall i | 0 <= i < |s.dropped| :: HasTwin(s, s.dropped[i]))
  }

  /** A log with the same ten fields was sent or is kept for sending. */
  ghost predicate HasTwin(s: State, log: Log) {
    exists a :: InCustody(s, a) && a.key == log.key
  }

  ghost predicate Initial(s: State, epoch: int) {
    && s.queue == s.cache == s.sent == s.dropped == [] && s.sequence == 0
    && s.logThread == Waiting && s.savedThread == Idle
    && KeysUnique(s.rows) && forall i | 0 <= i < |s.rows| :: s.rows[i].time < epoch
  }

  /** New logs are not dated before the process started. */
  predicate TimedFrom(step: Step, epoch: int) {
    step.Add? ==> step.log.time >= epoch
  }

  // ---- The database under unique keys ----

  lemma {:induction false} WithoutMembers(rows: seq<Row>, key: (int, nat))
    ensures forall r :: r in Without(rows, key) <==> r in rows && r.Key() != key
  {
    if rows != [] {
      WithoutMembers(rows[..|rows| - 1], key);
      assert rows == rows[..|rows| - 1] + [rows[|rows| - 1]];
    }
  }

  lemma {:induction false} WithoutKeepsUnique(rows: seq<Row>, key: (int, nat))
    requires KeysUnique(rows)
    ensures KeysUnique(Without(rows, key))
  {
    if rows != [] {
      var n := |rows| - 1;
      WithoutKeepsUnique(rows[..n], key);
      WithoutMembers(rows[..n], key);
      var w := Without(rows[..n], key);
      forall i | 0 <= i < |w|
        ensures w[i].Key() != rows[n].Key()
      {
        assert w[i] in rows[..n];
      }
    }
  }

  lemma {:induction false} WithoutAbsent(rows: seq<Row>, key: (int, nat))
    requires forall i | 0 <= i < |rows| :: rows[i].Key() != key
    ensures Without(rows, key) == rows
  {
    if rows != [] {
      WithoutAbsent(rows[..|rows| - 1], key);
    }
  }

  lemma WithoutAppend(rows: seq<Row>, r: Row, key: (int, nat))
    ensures Without(rows + [r], key) == if r.Key() == key then Without(rows, key) else Without(rows, key) + [r]
  {
    assert (rows + [r])[..|rows|] == rows;
  }

  /** Erasing a unique key removes that row's log, once, and nothing else. */
  lemma {:induction false} EraseUnique(rows: seq<Row>, k: nat)
    requires k < |rows| && KeyIsolated(rows, k)
    ensures rows[k].log in Logs(rows)
    ensures Logs(Without(rows, rows[k].Key())) == Logs(rows) - multiset{rows[k].log}
  {
    var n, key := |rows| - 1, rows[k].Key();
    var rest, last := rows[..n], rows[n];
    assert rows == rest + [last];
    hide Logs, Without;
    WithoutAppend(rest, last, key);
    AppendedRow(rest, last);
    if k == n {
      IsolatedLast(rows);
      AddRemove(Logs(rest), last.log);
    } else {
      IsolatedBefore(rows, k);
      EraseUnique(rest, k);
      AppendedRow(Without(rest, key), last);
      RemoveCommutes(Logs(rest), rows[k].log, last.log);
    }
    hide KeyIsolated;
  }

  lemma IsolatedLast(rows: seq<Row>)
    requires rows != [] && KeyIsolated(rows, |rows| - 1)
    ensures Without(rows[..|rows| - 1], rows[|rows| - 1].Key()) == rows[..|rows| - 1]
  {
    WithoutAbsent(rows[..|rows| - 1], rows[|rows| - 1].Key());
  }

  lemma IsolatedBefore(rows: seq<Row>, k: nat)
    requires k < |rows| - 1 && KeyIsolated(rows, k)
    ensures KeyIsolated(rows[..|rows| - 1], k) && rows[|rows| - 1].Key() != rows[k].Key()
  {
  }

  lemma AddRemove(m: multiset<Log>, x: Log)
    ensures x in m + multiset{x} && (m + multiset{x}) - multiset{x} == m
  {
  }

  lemma RemoveCommutes(m: multiset<Log>, x: Log, y: Log)
    requires x in m
    ensures x in m + multiset{y} && (m - multiset{x}) + multiset{y} == (m + multiset{y}) - multiset{x}
  {
  }

  lemma UniqueIsolated(rows: seq<Row>, k: nat)
    requires KeysUnique(rows) && k < |rows|
    ensures KeyIsolated(rows, k)
  {
  }

  /** Erasing loses exactly the erased row iff no other row has its key. */
  lemma EraseExact(rows: seq<Row>, k: nat)
    requires k < |rows|
    ensures Without(rows, rows[k].Key()) == rows[..k] + rows[k + 1..] <==> KeyIsolated(rows, k)
  {
    var key, w, expected := rows[k].Key(), Without(rows, rows[k].Key()), rows[..k] + rows[k + 1..];
    if KeyIsolated(rows, k) {
      EraseIsolated(rows, k);
    }
    if w == expected {
      WithoutMembers(rows, key);
      forall i | 0 <= i < |rows| && i != k
        ensures rows[i].Key() != key
      {
        assert rows[i] == expected[if i < k then i else i - 1];
        assert rows[i] in w;
      }
    }
  }

  ghost predicate KeyIsolated(rows: seq<Row>, k: nat)
    requires k < |rows|
  {
    forall i | 0 <= i < |rows| && i != k :: rows[i].Key() != rows[k].Key()
  }

  lemma EraseIsolated(rows: seq<Row>, k: nat)
    requires k < |rows| && KeyIsolated(rows, k)
    ensures Without(rows, rows[k].Key()) == rows[..k] + rows[k + 1..]
  {
    hide Without;
    var key, before, after := rows[k].Key(), rows[..k], rows[k + 1..];
    assert forall i | 0 <= i < |after| :: after[i] == rows[k + 1 + i];
    WithoutAbsent(before, key);
    WithoutAbsent(after, key);
    WithoutAppend(before, rows[k], key);
    assert rows == (before + [rows[k]]) + after;
    WithoutConcat(before + [rows[k]], after, key);
  }

  lemma {:induction false} WithoutConcat(a: seq<Row>, b: seq<Row>, key: (int, nat))
    ensures Without(a + b, key) == Without(a, key) + Without(b, key)
  {
    if b == [] {
      assert a + b == a;
    } else {
      WithoutConcat(a, b[..|b| - 1], key);
      assert (a + b)[..|a + b| - 1] == a + b[..|b| - 1];
    }
  }

  lemma {:induction false} RowLogStored(rows: seq<Row>, r: Row)
    requires r in rows
    ensures r.log in Logs(rows)
  {
    var n := |rows| - 1;
    if rows[n] != r {
      RowLogStored(rows[..n], r);
    }
  }

  lemma AppendedRow(rows: seq<Row>, r: Row)
    ensures Logs(rows + [r]) == Logs(rows) + multiset{r.log}
  {
    assert (rows + [r])[..|rows|] == rows;
  }

  lemma {:induction false} UniqueOnce(rows: seq<Row>, r: Row)
    requires KeysUnique(rows)
    ensures multiset(rows)[r] <= 1
  {
    if rows != [] {
      var n := |rows| - 1;
      assert rows == rows[..n] + [rows[n]];
      UniqueOnce(rows[..n], r);
      if rows[n] == r {
        assert forall i | 0 <= i < n :: rows[..n][i] != r;
      }
    }
  }

  lemma SelectionUnique(batch: seq<Row>, rows: seq<Row>)
    requires KeysUnique(rows) && multiset(batch) == multiset(rows)
    ensures KeysUnique(batch)
    ensures forall j | 0 <= j < |batch| :: batch[j] in rows
  {
    forall j | 0 <= j < |batch|
      ensures batch[j] in rows
    {
      assert batch[j] in multiset(batch);
    }
    forall i, j | 0 <= i < j < |batch|
      ensures batch[i].Key() != batch[j].Key()
    {
      UniqueOnce(rows, batch[j]);
      OnceMeansDistinct(batch, i, j);
      var x :| 0 <= x < |rows| && rows[x] == batch[i];
      var y :| 0 <= y < |rows| && rows[y] == batch[j];
      assert x < y || y < x;
    }
  }

  lemma OnceMeansDistinct(batch: seq<Row>, i: nat, j: nat)
    requires i < j < |batch| && multiset(batch)[batch[j]] <= 1
    ensures batch[i] != batch[j]
  {
    assert batch == batch[..j] + ([batch[j]] + batch[j + 1..]);
    assert multiset(batch) == multiset(batch[..j]) + (multiset{batch[j]} + multiset(batch[j + 1..]));
    assert batch[..j][i] in multiset(batch[..j]);
  }

  // ---- Every step conserves the logs ----

  lemma PendingSplits(batch: seq<Log>, i: nat)
    requires i < |batch|
    ensures Bag(batch[i..]) == multiset{batch[i]} + Bag(batch[i + 1..])
  {
    assert batch[i..] == [batch[i]] + batch[i + 1..];
  }

  /** One log moves from the pending ones to the sent, the dropped or the stored ones. */
  lemma OneMoves(q: multiset<Log>, p: multiset<Log>, sent: multiset<Log>, dropped: multiset<Log>, stored: multiset<Log>, x: multiset<Log>)
    ensures Total(q, p, sent + x, dropped, stored) == Total(q, x + p, sent, dropped, stored)
    ensures Total(q, p, sent, dropped + x, stored) == Total(q, x + p, sent, dropped, stored)
    ensures Total(q, p, sent, dropped, stored + x) == Total(q, x + p, sent, dropped, stored)
  {
  }

  /** One stored log is sent: it leaves the stored ones for the sent ones. */
  lemma OneDeparts(q: multiset<Log>, p: multiset<Log>, sent: multiset<Log>, dropped: multiset<Log>, stored: multiset<Log>, x: multiset<Log>)
    requires x <= stored
    ensures Total(q, p, sent + x, dropped, stored - x) == Total(q, p, sent, dropped, stored)
  {
  }

  lemma Appended(logs: seq<Log>, log: Log)
    ensures Bag(logs + [log]) == Bag(logs) + multiset{log}
  {
  }

  lemma ProcessConserves(s: State, now: int, accepted: bool)
    requires s.logThread.Processing?
    ensures Everywhere(ProcessLog(s, now, accepted)) == Everywhere(s)
  {
    hide Filter, Logs, Departing, Total, Bag;
    var Processing(batch, i) := s.logThread;
    if i < |batch| {
      PendingSplits(batch, i);
      assert Pending(Processing(batch, i + 1)) == batch[i + 1..];
      Appended(s.sent, batch[i]);
      Appended(s.dropped, batch[i]);
      OneMoves(Bag(s.queue), Bag(batch[i + 1..]), Bag(s.sent), Bag(s.dropped),
               Logs(s.rows) - Departing(s.savedThread), multiset{batch[i]});
    }
  }

  lemma SaveConserves(s: State)
    requires s.logThread.Saving? && HeldRows(s)
    ensures Everywhere(SaveLog(s)) == Everywhere(s)
  {
    hide Logs, Departing, Total, Bag;
    var Saving(batch, i) := s.logThread;
    if i < |batch| {
      PendingSplits(batch, i);
      AppendedRow(s.rows, Row(s.sequence + 1, batch[i].time, batch[i]));
      DepartingStored(s);
      var stored, out, x := Logs(s.rows), Departing(s.savedThread), multiset{batch[i]};
      AddThenRemove(stored, x, out);
      OneMoves(Bag(s.queue), Bag(batch[i + 1..]), Bag(s.sent), Bag(s.dropped), stored - out, x);
    }
  }

  lemma ResendConserves(s: State, accepted: bool)
    requires s.savedThread.Sending? && HeldRows(s)
    ensures Everywhere(ResendRow(s, accepted)) == Everywhere(s)
  {
    hide Logs, Total, Bag;
    var Sending(rows, i) := s.savedThread;
    if i < |rows| {
      RowLogStored(s.rows, rows[i]);
      var x, stored := multiset{rows[i].log}, Logs(s.rows);
      Appended(s.sent, rows[i].log);
      NothingDeparts(stored);
      OneDeparts(Bag(s.queue), Bag(Pending(s.logThread)), Bag(s.sent), Bag(s.dropped), stored, x);
    }
  }

  lemma AddThenRemove(stored: multiset<Log>, x: multiset<Log>, out: multiset<Log>)
    requires out <= stored
    ensures (stored + x) - out == (stored - out) + x
  {
  }

  lemma NothingDeparts(stored: multiset<Log>)
    ensures stored - multiset{} == stored
  {
  }

  lemma EraseConserves(s: State)
    requires s.savedThread.Erasing? && s.savedThread.index < |s.savedThread.rows| && HeldRows(s) && KeysUnique(s.rows)
    ensures var Erasing(rows, i) := s.savedThread;
            Everywhere(s.(rows := Without(s.rows, rows[i].Key()), savedThread := Sending(rows, i + 1))) == Everywhere(s)
  {
    hide Logs, Without, Total, Bag, KeysUnique;
    var Erasing(rows, i) := s.savedThread;
    var k := HeldRow(s);
    UniqueIsolated(s.rows, k);
    EraseUnique(s.rows, k);
    NothingDeparts(Logs(Without(s.rows, rows[i].Key())));
  }

  /** Where the row about to be erased is. */
  lemma HeldRow(s: State) returns (k: nat)
    requires s.savedThread.Erasing? && s.savedThread.index < |s.savedThread.rows| && HeldRows(s)
    ensures k < |s.rows| && s.rows[k] == s.savedThread.rows[s.savedThread.index]
  {
    var row := s.savedThread.rows[s.savedThread.index];
    assert row in s.rows;
    k :| 0 <= k < |s.rows| && s.rows[k] == row;
  }

  lemma QueueConserves(q: multiset<Log>, sent: multiset<Log>, dropped: multiset<Log>, stored: multiset<Log>, x: multiset<Log>)
    ensures forall p :: Total(q + x, p, sent, dropped, stored) == Total(q, p, sent, dropped, stored) + x
    ensures Total(multiset{}, q, sent, dropped, stored) == Total(q, multiset{}, sent, dropped, stored)
  {
  }

  lemma StepConserves(s: State, step: Step, epoch: int)
    requires Inv(s, epoch) && Enabled(s, step)
    ensures Everywhere(Next(s, step)) == Everywhere(s) + Added(step)
  {
    hide Inv, Logs, Departing, Total, Bag, ProcessLog, SaveLog, ResendRow, Without;
    InvHeld(s, epoch);
    match step
    case Add(log) =>
      Appended(s.queue, log);
      QueueConserves(Bag(s.queue), Bag(s.sent), Bag(s.dropped), Logs(s.rows) - Departing(s.savedThread), multiset{log});
    case Take =>
      assert s.queue[0..] == s.queue;
      EmptyBag();
      QueueConserves(Bag(s.queue), Bag(s.sent), Bag(s.dropped), Logs(s.rows) - Departing(s.savedThread), multiset{});
    case Process(now, accepted) => ProcessConserves(s, now, accepted);
    case Save => SaveConserves(s);
    case Load(batch) => NoDeparture(s, batch);
    case Resend(accepted) => ResendConserves(s, accepted);
    case EraseSent => EraseConserves(s);
  }

  lemma InvHeld(s: State, epoch: int)
    requires Inv(s, epoch)
    ensures HeldRows(s) && KeysUnique(s.rows)
  {
  }

  lemma EmptyBag()
    ensures Bag([]) == multiset{}
  {
  }

  lemma NoDeparture(s: State, batch: seq<Row>)
    requires s.savedThread.Idle?
    ensures Departing(s.savedThread) == Departing(Sending(batch, 0))
  {
  }

  lemma DepartingStored(s: State)
    requires HeldRows(s)
    ensures Departing(s.savedThread) <= Logs(s.rows)
  {
    if s.savedThread.Erasing? && s.savedThread.index < |s.savedThread.rows| {
      RowLogStored(s.rows, s.savedThread.rows[s.savedThread.index]);
    }
  }

  // ---- The invariant ----

  lemma SaveKeepsCustody(s: State, log: Log)
    requires s.logThread.Saving? && InCustody(s, log)
    ensures InCustody(SaveLog(s), log)
  {
    hide Logs;
    var Saving(batch, i) := s.logThread;
    if i < |batch| {
      var row := Row(s.sequence + 1, batch[i].time, batch[i]);
      AppendedRow(s.rows, row);
      AddedMember(Logs(s.rows), batch[i]);
      FirstOrLater(batch, i, log);
      assert SaveLog(s).rows == s.rows + [row];
    }
  }

  lemma AddedMember(m: multiset<Log>, x: Log)
    ensures forall y :: y in m + multiset{x} <==> y in m || y == x
  {
  }

  lemma FirstOrLater(batch: seq<Log>, i: nat, log: Log)
    requires i < |batch|
    ensures log in batch[i..] <==> log == batch[i] || log in batch[i + 1..]
    ensures i + 1 == |batch| ==> log !in batch[i + 1..]
  {
    assert batch[i..] == [batch[i]] + batch[i + 1..];
  }

  lemma EraseKeepsCustody(s: State, epoch: int, log: Log)
    requires Inv(s, epoch) && Enabled(s, EraseSent) && InCustody(s, log)
    ensures InCustody(Next(s, EraseSent), log)
  {
    var Erasing(rows, i) := s.savedThread;
    var k :| 0 <= k < |s.rows| && s.rows[k] == rows[i];
    UniqueIsolated(s.rows, k);
    EraseUnique(s.rows, k);
    hide Logs, Without;
  }

  /** A log once in custody stays in custody. */
  lemma CustodyKept(s: State, step: Step, epoch: int, log: Log)
    requires Inv(s, epoch) && Enabled(s, step) && InCustody(s, log)
    ensures InCustody(Next(s, step), log)
  {
    hide Inv, Filter, Logs;
    match step
    case Save => SaveKeepsCustody(s, log);
    case EraseSent => EraseKeepsCustody(s, epoch, log);
    case _ =>
  }

  lemma TwinsKept(s: State, step: Step, epoch: int)
    requires Inv(s, epoch) && Enabled(s, step)
    ensures forall i | 0 <= i < |s.dropped| :: HasTwin(Next(s, step), s.dropped[i])
    ensures forall i | 0 <= i < |s.cache| :: InCustody(Next(s, step), s.cache[i])
  {
    forall i | 0 <= i < |s.dropped|
      ensures HasTwin(Next(s, step), s.dropped[i])
    {
      assert HasTwin(s, s.dropped[i]);
      var a :| InCustody(s, a) && a.key == s.dropped[i].key;
      CustodyKept(s, step, epoch, a);
    }
    forall i | 0 <= i < |s.cache|
      ensures InCustody(Next(s, step), s.cache[i])
    {
      CustodyKept(s, step, epoch, s.cache[i]);
    }
  }

  lemma StepKeepsTwins(s: State, step: Step, epoch: int)
    requires Inv(s, epoch) && Enabled(s, step)
    ensures var t := Next(s, step);
            && (forall i | 0 <= i < |t.cache| :: InCustody(t, t.cache[i]))
            && (forall i | 0 <= i < |t.dropped| :: HasTwin(t, t.dropped[i]))
  {
    hide Inv, Filter, InCustody, HasTwin, Without;
    TwinsKept(s, step, epoch);
    if step.Process? && s.logThread.index < |s.logThread.batch| {
      var t := Next(s, step);
      var log := s.logThread.batch[s.logThread.index];
      if log.key.policyType != MEDIA_AIRDROP {
        FilterCache(s.cache, log, step.now);
        if Filter(s.cache, log, step.now).0 {
          TwinFound(s.cache, log, step.now, t);
        } else {
          ProcessedInCustody(s, step.now, step.accepted);
        }
      }
    }
  }

  /** The filter's cache holds old entries and, if it is no duplicate, the log. */
  lemma FilterCache(cache: seq<Log>, log: Log, now: int)
    ensures var (duplicate, cache') := Filter(cache, log, now);
            forall i | 0 <= i < |cache'| :: cache'[i] in cache || (!duplicate && cache'[i] == log)
  {
  }

  lemma TwinFound(cache: seq<Log>, log: Log, now: int, t: State)
    requires Filter(cache, log, now).0 && forall i | 0 <= i < |cache| :: InCustody(t, cache[i])
    ensures HasTwin(t, log)
  {
    var d := FirstDuplicate(cache, log, now);
    assert InCustody(t, cache[d]) && cache[d].key == log.key;
  }

  /** A log that passed the filter was sent or waits first in line for the database. */
  lemma ProcessedInCustody(s: State, now: int, accepted: bool)
    requires s.logThread.Processing? && s.logThread.index < |s.logThread.batch|
    requires var log := s.logThread.batch[s.logThread.index];
             log.key.policyType != MEDIA_AIRDROP && !Filter(s.cache, log, now).0
    ensures InCustody(ProcessLog(s, now, accepted), s.logThread.batch[s.logThread.index])
  {
    hide Filter;
    var t := ProcessLog(s, now, accepted);
    if !accepted {
      assert Pending(t.logThread)[0] == s.logThread.batch[s.logThread.index];
    }
  }

  lemma AllFromTail(batch: seq<Log>, i: nat, epoch: int)
    requires i < |batch| && AllFrom(batch[i..], epoch)
    ensures batch[i].time >= epoch && AllFrom(batch[i + 1..], epoch)
  {
    assert batch[i..] == [batch[i]] + batch[i + 1..];
    assert batch[i..][0] == batch[i];
    assert batch[i + 1..] == batch[i..][1..];
  }

  lemma NewKey(rows: seq<Row>, sequence: nat, epoch: int, log: Log)
    requires KeysUnique(rows) && KeysBounded(rows, sequence, epoch) && log.time >= epoch
    ensures KeysUnique(rows + [Row(sequence + 1, log.time, log)])
    ensures KeysBounded(rows + [Row(sequence + 1, log.time, log)], sequence + 1, epoch)
  {
  }

  lemma WithoutKeepsBound(rows: seq<Row>, key: (int, nat), sequence: nat, epoch: int)
    requires KeysBounded(rows, sequence, epoch)
    ensures KeysBounded(Without(rows, key), sequence, epoch)
  {
    hide Without;
    WithoutMembers(rows, key);
    var w := Without(rows, key);
    forall i | 0 <= i < |w|
      ensures w[i].time < epoch || w[i].sequence <= sequence
    {
      assert w[i] in rows;
    }
  }

  lemma StepKeepsRows(s: State, step: Step, epoch: int)
    requires Inv(s, epoch) && Enabled(s, step) && TimedFrom(step, epoch)
    ensures var t := Next(s, step);
            && (t.queue != [] ==> t.signalled)
            && AllFrom(t.queue, epoch) && AllFrom(Pending(t.logThread), epoch)
            && KeysUnique(t.rows) && KeysBounded(t.rows, t.sequence, epoch)
  {
    hide Filter, Without, KeysUnique, KeysBounded, HeldRows, InCustody, HasTwin;
    if (step.Save? || step.Process?) && s.logThread.index < |s.logThread.batch| {
      AllFromTail(s.logThread.batch, s.logThread.index, epoch);
    }
    match step
    case Save =>
      var Saving(batch, i) := s.logThread;
      if i < |batch| {
        NewKey(s.rows, s.sequence, epoch, batch[i]);
      }
    case EraseSent =>
      var key := s.savedThread.rows[s.savedThread.index].Key();
      WithoutKeepsUnique(s.rows, key);
      WithoutKeepsBound(s.rows, key, s.sequence, epoch);
    case _ =>
  }

  lemma StepKeepsHeld(s: State, step: Step, epoch: int)
    requires Inv(s, epoch) && Enabled(s, step)
    ensures HeldRows(Next(s, step))
  {
    match step
    case Load(batch) => SelectionUnique(batch, s.rows);
    case EraseSent => WithoutMembers(s.rows, s.savedThread.rows[s.savedThread.index].Key());
    case _ =>
  }

  lemma StepKeepsInv(s: State, step: Step, epoch: int)
    requires Inv(s, epoch) && Enabled(s, step) && TimedFrom(step, epoch)
    ensures Inv(Next(s, step), epoch)
  {
    StepKeepsRows(s, step, epoch);
    StepKeepsHeld(s, step, epoch);
    StepKeepsTwins(s, step, epoch);
  }

  // ---- Whole runs ----

  /** A run: each state is followed by the step taken from it and the next state. */
  ghost predicate IsRun(states: seq<State>, steps: seq<Step>, epoch: int) {
    && |states| == |steps| + 1 && Initial(states[0], epoch)
    && forall i | 0 <= i < |steps| ::
         Enabled(states[i], steps[i]) && TimedFrom(steps[i], epoch) && states[i + 1] == Next(states[i], steps[i])
  }

  function AllAdded(steps: seq<Step>): multiset<Log> {
    if steps == [] then multiset{} else AllAdded(steps[..|steps| - 1]) + Added(steps[|steps| - 1])
  }

  lemma InitialHolds(s: State, epoch: int)
    requires Initial(s, epoch)
    ensures Inv(s, epoch) && Everywhere(s) == Logs(s.rows)
  {
  }

  lemma AddLast(added: multiset<Log>, stored: multiset<Log>, x: multiset<Log>)
    ensures (added + stored) + x == (added + x) + stored
  {
  }

  /** In every interleaving every log added, and every log found in the database at the start, is accounted
      for: queued, pending in the batch, sent, dropped as a duplicate, or stored, each exactly once. */
  lemma {:induction false} RunConserves(states: seq<State>, steps: seq<Step>, epoch: int)
    requires IsRun(states, steps, epoch)
    ensures Everywhere(states[|steps|]) == AllAdded(steps) + Logs(states[0].rows)
    ensures Inv(states[|steps|], epoch)
  {
    if steps != [] {
      hide Inv, Enabled, Next, Everywhere, TimedFrom, Initial, Logs, Added;
      var n := |steps| - 1;
      assert IsRun(states[..n + 1], steps[..n], epoch);
      RunConserves(states[..n + 1], steps[..n], epoch);
      StepConserves(states[n], steps[n], epoch);
      StepKeepsInv(states[n], steps[n], epoch);
      AddLast(AllAdded(steps[..n]), Logs(states[0].rows), Added(steps[n]));
    } else {
      InitialHolds(states[0], epoch);
    }
  }

  // ---- Every erase has its own send ----

  /** The row whose send succeeded in this step. */
  function Resent(s: State, step: Step): seq<Row> {
    if step.Resend? && step.accepted && s.savedThread.Sending? && s.savedThread.index < |s.savedThread.rows|
    then [s.savedThread.rows[s.savedThread.index]] else []
  }

  /** The row erased in this step. */
  function Erased(s: State, step: Step): seq<Row> {
    if step.EraseSent? then DepartingRow(s.savedThread) else []
  }

  function DepartingRow(t: SavedThread): seq<Row> {
    if t.Erasing? && t.index < |t.rows| then [t.rows[t.index]] else []
  }

  function ResentRows(states: seq<State>, steps: seq<Step>): seq<Row>
    requires |states| == |steps| + 1
  {
    if steps == [] then []
    else
      var n := |steps| - 1;
      ResentRows(states[..n + 1], steps[..n]) + Resent(states[n], steps[n])
  }

  function ErasedRows(states: seq<State>, steps: seq<Step>): seq<Row>
    requires |states| == |steps| + 1
  {
    if steps == [] then []
    else
      var n := |steps| - 1;
      ErasedRows(states[..n + 1], steps[..n]) + Erased(states[n], steps[n])
  }

  lemma SendThenErase(s: State, step: Step)
    requires Enabled(s, step)
    ensures DepartingRow(s.savedThread) + Resent(s, step) == Erased(s, step) + DepartingRow(Next(s, step).savedThread)
  {
    hide Filter, Without, IsSelection;
  }

  lemma SentGrows(s: State, step: Step)
    requires Enabled(s, step)
    ensures Bag(Next(s, step).sent) >= Bag(s.sent) + Logs(Resent(s, step))
  {
    hide Filter, Without, IsSelection, Bag, Logs;
    match step
    case Process(now, accepted) =>
      if s.logThread.index < |s.logThread.batch| {
        Appended(s.sent, s.logThread.batch[s.logThread.index]);
      }
      NoLogs();
    case Resend(accepted) =>
      if Resent(s, step) != [] {
        Appended(s.sent, Resent(s, step)[0].log);
        OneLog(Resent(s, step)[0]);
      }
      NoLogs();
    case _ =>
      NoLogs();
  }

  lemma NoLogs()
    ensures Logs([]) == multiset{}
  {
  }

  lemma OneLog(row: Row)
    ensures Logs([row]) == multiset{row.log}
  {
    assert [row][..0] == [];
  }

  /** In every run the rows whose resending succeeded, in order, are the rows erased, in order, followed by the one
      about to be erased if there is one; and all of their logs are among the sent ones, as often. */
  lemma {:induction false} EveryEraseHasItsSend(states: seq<State>, steps: seq<Step>, epoch: int)
    requires IsRun(states, steps, epoch)
    ensures ResentRows(states, steps) == ErasedRows(states, steps) + DepartingRow(states[|steps|].savedThread)
    ensures Logs(ResentRows(states, steps)) <= Bag(states[|steps|].sent)
  {
    if steps != [] {
      var n := |steps| - 1;
      assert IsRun(states[..n + 1], steps[..n], epoch);
      EveryEraseHasItsSend(states[..n + 1], steps[..n], epoch);
      SendThenErase(states[n], steps[n]);
      SentGrows(states[n], steps[n]);
      var before := ResentRows(states[..n + 1], steps[..n]);
      ResentLogs(before, states[n], steps[n]);
      Reassociate(ErasedRows(states[..n + 1], steps[..n]), DepartingRow(states[n].savedThread), Resent(states[n], steps[n]),
                  Erased(states[n], steps[n]), DepartingRow(states[n + 1].savedThread));
    }
    hide Next, Enabled, Resent, Erased, DepartingRow, Initial, TimedFrom, Logs, Bag;
  }

  lemma Reassociate(erased: seq<Row>, departing: seq<Row>, resent: seq<Row>, now: seq<Row>, next: seq<Row>)
    requires departing + resent == now + next
    ensures (erased + departing) + resent == (erased + now) + next
  {
    assert (erased + departing) + resent == erased + (departing + resent);
  }

  lemma ResentLogs(before: seq<Row>, s: State, step: Step)
    ensures Logs(before + Resent(s, step)) == Logs(before) + Logs(Resent(s, step))
  {
    if Resent(s, step) != [] {
      var row := Resent(s, step)[0];
      AppendedRow(before, row);
      AppendedRow([], row);
      assert [] + [row] == [row];
    } else {
      assert before + [] == before;
    }
  }

  lemma AboutToErase(s: State, epoch: int)
    requires Inv(s, epoch) && Enabled(s, EraseSent)
    ensures var row := s.savedThread.rows[s.savedThread.index];
            row in s.rows && row.log in s.sent && DepartingRow(s.savedThread) == [row]
  {
  }

  /** A row is erased only after its own send succeeded: that send is the last one, and every earlier one had its
      erase already. */
  lemma ErasedAfterSent(states: seq<State>, steps: seq<Step>, epoch: int)
    requires IsRun(states, steps, epoch) && Enabled(states[|steps|], EraseSent)
    ensures var s := states[|steps|];
            var row := s.savedThread.rows[s.savedThread.index];
            && row in s.rows && row.log in s.sent
            && ResentRows(states, steps) == ErasedRows(states, steps) + [row]
  {
    RunConserves(states, steps, epoch);
    EveryEraseHasItsSend(states, steps, epoch);
    AboutToErase(states[|steps|], epoch);
    hide ResentRows, ErasedRows, Everywhere, AllAdded, Inv, IsRun, Logs, Bag;
  }

  /** No event is silenced: every dropped log has a twin that was sent or is kept for sending. */
  lemma DroppedHaveTwins(states: seq<State>, steps: seq<Step>, epoch: int, log: Log)
    requires IsRun(states, steps, epoch) && log in states[|steps|].dropped
    ensures HasTwin(states[|steps|], log)
  {
    RunConserves(states, steps, epoch);
  }

  // ---- What the duplicate filter does in a run ----

  /** The call of the duplicate filter a step makes, if it makes one. */
  function FilterCall(s: State, step: Step): seq<Call> {
    if step.Process? && s.logThread.Processing? && s.logThread.index < |s.logThread.batch|
       && s.logThread.batch[s.logThread.index].key.policyType != MEDIA_AIRDROP
    then [Call(s.logThread.batch[s.logThread.index], step.now)]
    else []
  }

  function FilterCalls(states: seq<State>, steps: seq<Step>): seq<Call>
    requires |states| == |steps| + 1
  {
    if steps == [] then []
    else
      var n := |steps| - 1;
      FilterCalls(states[..n + 1], steps[..n]) + FilterCall(states[n], steps[n])
  }

  lemma {:induction false} CacheFollowsCalls(states: seq<State>, steps: seq<Step>, epoch: int)
    requires IsRun(states, steps, epoch)
    ensures states[|steps|].cache == CacheAfter(FilterCalls(states, steps))
  {
    if steps != [] {
      var n := |steps| - 1;
      assert IsRun(states[..n + 1], steps[..n], epoch);
      CacheFollowsCalls(states[..n + 1], steps[..n], epoch);
      CacheStep(states[n], steps[n], FilterCalls(states[..n + 1], steps[..n]));
    }
  }

  lemma CacheStep(s: State, step: Step, calls: seq<Call>)
    requires Enabled(s, step) && s.cache == CacheAfter(calls)
    ensures Next(s, step).cache == CacheAfter(calls + FilterCall(s, step))
  {
    hide Filter, Without;
    if FilterCall(s, step) == [] {
      assert calls + [] == calls;
    } else {
      assert (calls + FilterCall(s, step))[..|calls|] == calls;
    }
  }

  /** `t` is `s` after one turn that dropped the log at hand, or sent it, or kept it with the rest for saving. */
  ghost predicate TurnedInto(s: State, t: State, drop: bool, accepted: bool)
    requires s.logThread.Processing? && s.logThread.index < |s.logThread.batch|
  {
    var log := s.logThread.batch[s.logThread.index];
    if drop then t.dropped == s.dropped + [log] && t.sent == s.sent && Pending(t.logThread) == Pending(s.logThread)[1..]
    else
      && t.dropped == s.dropped
      && if accepted then t.sent == s.sent + [log] && Pending(t.logThread) == Pending(s.logThread)[1..]
         else t.sent == s.sent && t.logThread.Saving? && Pending(t.logThread) == Pending(s.logThread)
  }

  lemma TurnByFilter(s: State, now: int, accepted: bool)
    requires s.logThread.Processing? && s.logThread.index < |s.logThread.batch|
    ensures var log := s.logThread.batch[s.logThread.index];
            var drop := log.key.policyType != MEDIA_AIRDROP && Filter(s.cache, log, now).0;
            TurnedInto(s, ProcessLog(s, now, accepted), drop, accepted)
  {
    hide Filter;
  }

  ghost predicate SeenRecently(past: seq<Log>, log: Log, now: int) {
    exists i :: 0 <= i < |past| && past[i].key == log.key && now - past[i].time <= 60
  }

  /** Whatever the threads interleave, as long as times do not run backwards: a log is dropped iff it is no AirDrop
      log and a log with the same ten fields, at most 60 seconds old, got past the filter before; otherwise it
      is sent or, when the send fails, kept for the database together with the rest of its batch. */
  lemma DroppedExactly(states: seq<State>, steps: seq<Step>, epoch: int, now: int, accepted: bool)
    requires IsRun(states, steps, epoch) && states[|steps|].logThread.Processing?
    requires states[|steps|].logThread.index < |states[|steps|].logThread.batch|
    requires Chronological(FilterCalls(states, steps) + FilterCall(states[|steps|], Process(now, accepted)))
    ensures var s := states[|steps|];
            var log := s.logThread.batch[s.logThread.index];
            var drop := log.key.policyType != MEDIA_AIRDROP && SeenRecently(History(FilterCalls(states, steps)), log, now);
            TurnedInto(s, Next(s, Process(now, accepted)), drop, accepted)
  {
    assert |states| == |steps| + 1;
    hide Filter, History, FilterCalls, CacheAfter, TurnedInto, ProcessLog, IsRun, Chronological;
    var s := states[|steps|];
    var log := s.logThread.batch[s.logThread.index];
    CacheFollowsCalls(states, steps, epoch);
    TurnByFilter(s, now, accepted);
    if log.key.policyType != MEDIA_AIRDROP {
      CacheRefinesHistory(FilterCalls(states, steps), log, now);
    }
  }

  // ---- The order in which logs leave ----

  /** The batch of the latest load. */
  function LatestBatch(steps: seq<Step>): seq<Row> {
    if steps == [] then []
    else if steps[|steps| - 1].Load? then steps[|steps| - 1].batch
    else LatestBatch(steps[..|steps| - 1])
  }

  /** A send was refused since the latest load. */
  predicate RefusedSince(steps: seq<Step>) {
    steps != [] && !steps[|steps| - 1].Load? && (steps[|steps| - 1] == Resend(false) || RefusedSince(steps[..|steps| - 1]))
  }

  /** The rows resent since the latest load. */
  function ResentSince(states: seq<State>, steps: seq<Step>): seq<Row>
    requires |states| == |steps| + 1
  {
    if steps == [] || steps[|steps| - 1].Load? then []
    else
      var n := |steps| - 1;
      ResentSince(states[..n + 1], steps[..n]) + Resent(states[n], steps[n])
  }

  /** What the saved-log thread has done of `batch`. */
  ghost predicate Progress(t: SavedThread, batch: seq<Row>, resent: seq<Row>, refused: bool) {
    match t
    case Idle => resent <= batch && (refused || resent == batch)
    case Sending(rows, i) => !refused && rows == batch && i <= |batch| && resent == batch[..i]
    case Erasing(rows, i) => !refused && rows == batch && i < |batch| && resent == batch[..i + 1]
  }

  lemma ProgressStep(s: State, step: Step, batch: seq<Row>, resent: seq<Row>, refused: bool)
    requires Enabled(s, step) && Progress(s.savedThread, batch, resent, refused)
    ensures if step.Load? then Progress(Next(s, step).savedThread, step.batch, [], false)
            else Progress(Next(s, step).savedThread, batch, resent + Resent(s, step), step == Resend(false) || refused)
  {
    hide Filter, Without, IsSelection;
    if Resent(s, step) == [] {
      assert resent + [] == resent;
    } else {
      assert batch[..s.savedThread.index + 1] == batch[..s.savedThread.index] + [batch[s.savedThread.index]];
    }
  }

  lemma {:induction false} RunProgress(states: seq<State>, steps: seq<Step>, epoch: int)
    requires IsRun(states, steps, epoch)
    ensures Progress(states[|steps|].savedThread, LatestBatch(steps), ResentSince(states, steps), RefusedSince(steps))
  {
    if steps != [] {
      var n := |steps| - 1;
      assert IsRun(states[..n + 1], steps[..n], epoch);
      RunProgress(states[..n + 1], steps[..n], epoch);
      ProgressStep(states[n], steps[n], LatestBatch(steps[..n]), ResentSince(states[..n + 1], steps[..n]), RefusedSince(steps[..n]));
    }
    hide Next, Enabled, Resent, Progress, TimedFrom;
  }

  /** In every run the rows resent since the latest load are the first ones of its batch, in its order; all of them
      once the thread is idle, unless a send was refused; and after a refusal no row is resent or erased until the
      next load. */
  lemma ResentInOrder(states: seq<State>, steps: seq<Step>, epoch: int)
    requires IsRun(states, steps, epoch)
    ensures exists k :: 0 <= k <= |LatestBatch(steps)| && ResentSince(states, steps) == LatestBatch(steps)[..k]
    ensures states[|steps|].savedThread.Idle? && !RefusedSince(steps) ==> ResentSince(states, steps) == LatestBatch(steps)
    ensures RefusedSince(steps) ==>
              forall step | Enabled(states[|steps|], step) :: !step.Resend? && !step.EraseSent?
  {
    RunProgress(states, steps, epoch);
    ProgressMeans(states[|steps|], LatestBatch(steps), ResentSince(states, steps), RefusedSince(steps));
    hide ResentSince, IsSelection, Progress, LatestBatch, RefusedSince, Enabled, IsRun;
  }

  lemma ProgressMeans(s: State, batch: seq<Row>, resent: seq<Row>, refused: bool)
    requires Progress(s.savedThread, batch, resent, refused)
    ensures exists k :: 0 <= k <= |batch| && resent == batch[..k]
    ensures s.savedThread.Idle? && !refused ==> resent == batch
    ensures refused ==> forall step | Enabled(s, step) :: !step.Resend? && !step.EraseSent?
  {
    hide IsSelection;
    assert resent <= batch && resent == batch[..|resent|];
  }

  lemma {:induction false} StillRefused(steps: seq<Step>, i: nat)
    requires i < |steps| && steps[i] == Resend(false) && forall m | i < m < |steps| :: !steps[m].Load?
    ensures RefusedSince(steps)
  {
    if i < |steps| - 1 {
      StillRefused(steps[..|steps| - 1], i);
    }
  }

  /** Between a refused send and the next load there is no send and no erase. */
  lemma NothingAfterRefusal(states: seq<State>, steps: seq<Step>, epoch: int, i: nat, j: nat)
    requires IsRun(states, steps, epoch) && i < j < |steps| && steps[i] == Resend(false)
    requires forall m | i < m < j :: !steps[m].Load?
    ensures !steps[j].Resend? && !steps[j].EraseSent?
  {
    assert IsRun(states[..j + 1], steps[..j], epoch);
    StillRefused(steps[..j], i);
    ResentInOrder(states[..j + 1], steps[..j], epoch);
    hide Next, RefusedSince, LatestBatch, ResentSince;
  }

  /** The logs in the order they were added. */
  function AddedInOrder(steps: seq<Step>): seq<Log> {
    if steps == [] then []
    else AddedInOrder(steps[..|steps| - 1]) + if steps[|steps| - 1].Add? then [steps[|steps| - 1].log] else []
  }

  function Newer<T>(before: seq<T>, after: seq<T>): seq<T> {
    if |before| <= |after| then after[|before|..] else []
  }

  function LogsOf(rows: seq<Row>): seq<Log> {
    seq(|rows|, i requires 0 <= i < |rows| => rows[i].log)
  }

  /** What a step of the log thread adds to the sent, the dropped and the stored logs. */
  function Left(s: State, step: Step, t: State): seq<Log> {
    if step.Process? || step.Save? then Newer(s.sent, t.sent) + Newer(s.dropped, t.dropped) + LogsOf(Newer(s.rows, t.rows))
    else []
  }

  function AllLeft(states: seq<State>, steps: seq<Step>): seq<Log>
    requires |states| == |steps| + 1
  {
    if steps == [] then []
    else
      var n := |steps| - 1;
      AllLeft(states[..n + 1], steps[..n]) + Left(states[n], steps[n], states[n + 1])
  }

  lemma LeftStep(s: State, step: Step)
    requires Enabled(s, step)
    ensures Left(s, step, Next(s, step)) + Pending(Next(s, step).logThread) + Next(s, step).queue
         == Pending(s.logThread) + s.queue + if step.Add? then [step.log] else []
  {
    hide Without, IsSelection, ProcessLog, SaveLog;
    if step.Process? {
      LeftByProcess(s, step.now, step.accepted);
    } else if step.Save? {
      LeftBySave(s);
    }
  }

  lemma LeftByProcess(s: State, now: int, accepted: bool)
    requires s.logThread.Processing?
    ensures var t := ProcessLog(s, now, accepted);
            Left(s, Process(now, accepted), t) + Pending(t.logThread) == Pending(s.logThread) && t.queue == s.queue
  {
    hide Filter;
    var t := ProcessLog(s, now, accepted);
    assert LogsOf([]) == [] && Newer(s.rows, t.rows) == [];
    if s.logThread.index < |s.logThread.batch| {
      NextPending(s.logThread.batch, s.logThread.index);
    }
  }

  lemma LeftBySave(s: State)
    requires s.logThread.Saving?
    ensures var t := SaveLog(s);
            Left(s, Save, t) + Pending(t.logThread) == Pending(s.logThread) && t.queue == s.queue
  {
    var t := SaveLog(s);
    assert LogsOf([]) == [] && Newer(s.sent, t.sent) == [] && Newer(s.dropped, t.dropped) == [];
    if s.logThread.index < |s.logThread.batch| {
      NextPending(s.logThread.batch, s.logThread.index);
      assert LogsOf(Newer(s.rows, t.rows)) == [s.logThread.batch[s.logThread.index]];
    }
  }

  lemma NextPending(batch: seq<Log>, i: nat)
    requires i < |batch|
    ensures batch[i..] == [batch[i]] + batch[i + 1..]
  {
  }

  /** In every run the log thread drops, sends or stores the logs in the very order in which they were added: those
      it is done with, then those pending, then the queue, are all that were added. */
  lemma {:induction false} LeftInOrder(states: seq<State>, steps: seq<Step>, epoch: int)
    requires IsRun(states, steps, epoch)
    ensures AllLeft(states, steps) + Pending(states[|steps|].logThread) + states[|steps|].queue == AddedInOrder(steps)
  {
    if steps != [] {
      var n := |steps| - 1;
      assert IsRun(states[..n + 1], steps[..n], epoch);
      LeftInOrder(states[..n + 1], steps[..n], epoch);
      LeftStep(states[n], steps[n]);
      Chained(AllLeft(states[..n + 1], steps[..n]), Left(states[n], steps[n], states[n + 1]),
              Pending(states[n + 1].logThread), states[n + 1].queue,
              Pending(states[n].logThread), states[n].queue, if steps[n].Add? then [steps[n].log] else []);
    }
    hide Next, Enabled, Left, TimedFrom, Pending;
    assert Pending(Waiting) == [];
  }

  lemma Chained(all: seq<Log>, left: seq<Log>, pending: seq<Log>, queue: seq<Log>, pending0: seq<Log>, queue0: seq<Log>, added: seq<Log>)
    requires left + pending + queue == pending0 + queue0 + added
    ensures (all + left) + pending + queue == (all + pending0 + queue0) + added
  {
    assert (all + left) + pending + queue == all + (left + pending + queue);
    assert (all + pending0 + queue0) + added == all + (pending0 + queue0 + added);
  }
}
