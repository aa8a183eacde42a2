/**
 The echo connection: a session that reads into a fixed buffer and writes it
 back, driven by readiness waits on a non-blocking socket. What the socket
 answers to each call is arbitrary.
 */
module EchoConnection {

  type Byte = x: int | 0 <= x < 256

  const BUFFER_SIZE: nat := 128

  datatype Error = NoError | WouldBlock | Failed
  datatype Mode = Reading | Writing

  /** `write_buffer_` is the part of `data` from `offset` on, of the given length. */
  datatype Session = Session(mode: Mode, data: seq<Byte>, offset: nat, length: nat)

  /** The connection, the waits it has handed to the socket, and all bytes that went through the socket. */
  datatype Connection = Connection(
    session: Session,
    readInProgress: bool, writeInProgress: bool,
    started: bool, open: bool,
    readWaits: nat, writeWaits: nat,
    received: seq<Byte>, sent: seq<Byte>)

  /** A wait that completed: its error code and, if it had none, what `read_some` or `write_some` answered. */
  datatype Event =
    | Start
    | ReadReady(waitError: Error, chunk: seq<Byte>, error: Error)
    | WriteReady(waitError: Error, count: nat, error: Error)

  predicate Shaped(s: Session) {
    |s.data| == BUFFER_SIZE && s.offset + s.length <= BUFFER_SIZE
  }

  /** The bytes read but not yet written back. */
  function Pending(s: Session): seq<Byte>
    requires Shaped(s)
  {
    s.data[s.offset..s.offset + s.length]
  }

  function DoRead(s: Session, chunk: seq<Byte>): Session
    requires Shaped(s) && |chunk| <= BUFFER_SIZE
  {
    if chunk == [] then s else Session(Writing, chunk + s.data[|chunk|..], 0, |chunk|)
  }

  function DoWrite(s: Session, count: nat): Session
    requires Shaped(s) && count <= s.length
  {
    if count == 0 then s
    else s.(offset := s.offset + count, length := s.length - count,
            mode := if s.length - count > 0 then Writing else Reading)
  }

  function StartOperations(c: Connection): Connection {
    var r := if c.session.mode.Reading? && !c.readInProgress
             then c.(readInProgress := true, readWaits := c.readWaits + 1) else c;
    if r.session.mode.Writing? && !r.writeInProgress
    then r.(writeInProgress := true, writeWaits := r.writeWaits + 1) else r
  }

  /** Carries on unless there was a real error. */
  function Continue(c: Connection, ec: Error): Connection {
    if ec.NoError? || ec.WouldBlock? then StartOperations(c) else c.(open := false)
  }

  /** A wait that was handed out can complete; the socket reads and writes within the buffer it is given. */
  predicate Enabled(c: Connection, e: Event) {
    match e
    case Start => !c.started
    case ReadReady(_, chunk, _) => c.readWaits > 0 && |chunk| <= BUFFER_SIZE
    case WriteReady(_, count, _) => c.writeWaits > 0 && count <= c.session.length
  }

  function Apply(c: Connection, e: Event): Connection
    requires Shaped(c.session) && Enabled(c, e)
  {
    match e
    case Start => StartOperations(c.(started := true))
    case ReadReady(waitError, chunk, error) =>
      var r := c.(readInProgress := false, readWaits := c.readWaits - 1);
      if waitError.NoError?
      then Continue(r.(session := DoRead(r.session, chunk), received := r.received + chunk), error)
      else Continue(r, waitError)
    case WriteReady(waitError, count, error) =>
      var r := c.(writeInProgress := false, writeWaits := c.writeWaits - 1);
      if waitError.NoError?
      then Continue(
          r.(session := DoWrite(r.session, count), sent := r.sent + Pending(r.session)[..count]), error)
      else Continue(r, waitError)
  }

  ghost predicate Initial(c: Connection) {
    && c.session.mode == Reading && |c.session.data| == BUFFER_SIZE
    && c.session.offset == c.session.length == 0
    && !c.readInProgress && !c.writeInProgress && !c.started && c.open
    && c.readWaits == c.writeWaits == 0
    && c.received == c.sent == []
  }

  ghost predicate Run(trace: seq<Connection>, events: seq<Event>) {
    && |trace| == |events| + 1
    && Initial(trace[0])
    && forall k :: 0 <= k < |events| ==>
         Shaped(trace[k].session) && Enabled(trace[k], events[k]) && trace[k + 1] == Apply(trace[k], events[k])
  }

  /** The bytes are accounted for, and the session is writing while some are pending. */
  ghost predicate Accounted(s: Session, received: seq<Byte>, sent: seq<Byte>) {
    && Shaped(s)
    && (s.mode.Writing? <==> s.length > 0)
    && received == sent + Pending(s)
  }

  /** The flags and waits agree with what the session wants. */
  ghost predicate Waiting(c: Connection) {
    && c.readWaits == (if c.readInProgress then 1 else 0)
    && c.writeWaits == (if c.writeInProgress then 1 else 0)
    && (c.readInProgress <==> c.started && c.open && c.session.mode.Reading?)
    && (c.writeInProgress <==> c.started && c.open && c.session.mode.Writing?)
  }

  ghost predicate Inv(c: Connection) {
    && Accounted(c.session, c.received, c.sent)
    && Waiting(c)
    && (!c.started ==> c.open && c.session.mode.Reading?)
  }

  /** After a handler ran with no wait left, the connection waits for what it needs next, or is closed. */
  lemma ContinueWaits(c: Connection, ec: Error)
    requires c.started && c.open && !c.readInProgress && !c.writeInProgress && c.readWaits == c.writeWaits == 0
    ensures Waiting(Continue(c, ec))
    ensures Continue(c, ec).session == c.session && Continue(c, ec).started
    ensures Continue(c, ec).received == c.received && Continue(c, ec).sent == c.sent
  {
  }

  lemma ReadKeepsInv(c: Connection, e: Event)
    requires Inv(c) && Enabled(c, e) && e.ReadReady?
    ensures Inv(Apply(c, e))
  {
  }

  lemma WriteAccounted(s: Session, received: seq<Byte>, sent: seq<Byte>, count: nat)
    requires Accounted(s, received, sent) && count <= s.length
    ensures Accounted(DoWrite(s, count), received, sent + Pending(s)[..count])
  {
  }

  lemma WriteKeepsInv(c: Connection, e: Event)
    requires Inv(c) && Enabled(c, e) && e.WriteReady?
    ensures Inv(Apply(c, e))
  {
    var r := c.(writeInProgress := false, writeWaits := c.writeWaits - 1);
    if e.waitError.NoError? {
      WriteAccounted(c.session, c.received, c.sent, e.count);
      var sent := r.sent + Pending(r.session)[..e.count];
      ContinueWaits(r.(session := DoWrite(r.session, e.count), sent := sent), e.error);
    } else {
      ContinueWaits(r, e.waitError);
    }
  }

  lemma StepKeepsInv(c: Connection, e: Event)
    requires Inv(c) && Enabled(c, e)
    ensures Inv(Apply(c, e))
  {
    match e
    case Start =>
    case ReadReady(_, _, _) => ReadKeepsInv(c, e);
    case WriteReady(_, _, _) => WriteKeepsInv(c, e);
  }

  lemma {:induction false} InvHolds(trace: seq<Connection>, events: seq<Event>, k: nat)
    requires Run(trace, events) && k < |trace|
    ensures Inv(trace[k])
  {
    if k > 0 {
      InvHolds(trace, events, k - 1);
      StepKeepsInv(trace[k - 1], events[k - 1]);
    }
  }

  // ----- What the socket delivered and took, from the events alone -----

  /** All bytes that `read_some` answered. */
  function Delivered(events: seq<Event>): seq<Byte> {
    if events == [] then []
    else
      var e := events[|events| - 1];
      Delivered(events[..|events| - 1]) + if e.ReadReady? && e.waitError.NoError? then e.chunk else []
  }

  /** How many bytes `write_some` took. */
  function Taken(events: seq<Event>): nat {
    if events == [] then 0
    else
      var e := events[|events| - 1];
      Taken(events[..|events| - 1]) + if e.WriteReady? && e.waitError.NoError? then e.count else 0
  }

  lemma ContinueKeepsBytes(c: Connection, ec: Error)
    ensures Continue(c, ec).received == c.received && Continue(c, ec).sent == c.sent
  {
  }

  lemma StepAccounts(c: Connection, e: Event)
    requires Shaped(c.session) && Enabled(c, e)
    ensures Apply(c, e).received == c.received + if e.ReadReady? && e.waitError.NoError? then e.chunk else []
    ensures |Apply(c, e).sent| == |c.sent| + if e.WriteReady? && e.waitError.NoError? then e.count else 0
  {
    hide Continue, DoRead, DoWrite;
    match e
    case Start =>
    case ReadReady(waitError, chunk, error) =>
      var r := c.(readInProgress := false, readWaits := c.readWaits - 1);
      ContinueKeepsBytes(r.(session := DoRead(r.session, chunk), received := r.received + chunk), error);
      ContinueKeepsBytes(r, waitError);
    case WriteReady(waitError, count, error) =>
      var r := c.(writeInProgress := false, writeWaits := c.writeWaits - 1);
      var sent := r.sent + Pending(r.session)[..count];
      ContinueKeepsBytes(r.(session := DoWrite(r.session, count), sent := sent), error);
      ContinueKeepsBytes(r, waitError);
  }

  lemma {:induction false} SocketAccounts(trace: seq<Connection>, events: seq<Event>, k: nat)
    requires Run(trace, events) && k < |trace|
    ensures trace[k].received == Delivered(events[..k])
    ensures |trace[k].sent| == Taken(events[..k])
  {
    if k > 0 {
      SocketAccounts(trace, events, k - 1);
      InvHolds(trace, events, k - 1);
      assert events[..k][..k - 1] == events[..k - 1];
      StepAccounts(trace[k - 1], events[k - 1]);
    } else {
      assert events[..0] == [];
    }
  }

  /**
   For every sequence of partial reads and writes, would-block answers and
   errors: what the socket delivered is what was sent back, then the bytes
   pending; the session writes exactly while some are.
   */
  lemma EchoesEverything(trace: seq<Connection>, events: seq<Event>, k: nat)
    requires Run(trace, events) && k < |trace|
    ensures Shaped(trace[k].session)
    ensures Delivered(events[..k]) == trace[k].received == trace[k].sent + Pending(trace[k].session)
    ensures |trace[k].sent| == Taken(events[..k])
    ensures trace[k].session.mode.Writing? <==> Pending(trace[k].session) != []
  {
    InvHolds(trace, events, k);
    SocketAccounts(trace, events, k);
  }

  /** What went out is a prefix of what the socket delivered, as long as the counts that it took. */
  lemma SentIsPrefix(trace: seq<Connection>, events: seq<Event>, k: nat)
    requires Run(trace, events) && k < |trace|
    ensures Taken(events[..k]) <= |Delivered(events[..k])|
    ensures trace[k].sent == Delivered(events[..k])[..Taken(events[..k])]
  {
    EchoesEverything(trace, events, k);
  }

  /** A started connection has exactly one wait outstanding while it is open, and none once it is closed. */
  lemma OneWaitOutstanding(trace: seq<Connection>, events: seq<Event>, k: nat)
    requires Run(trace, events) && k < |trace|
    ensures trace[k].readWaits + trace[k].writeWaits == if trace[k].started && trace[k].open then 1 else 0
    ensures !trace[k].open ==> forall e :: !Enabled(trace[k], e) || e.Start?
    ensures Shaped(trace[k].session)
    ensures trace[k].started && trace[k].open ==>
      (trace[k].readWaits == 1 <==> Pending(trace[k].session) == [])
  {
    InvHolds(trace, events, k);
  }

  /** The buffer is only overwritten when no byte of it is still to be sent. */
  lemma NoOverwriteWhilePending(trace: seq<Connection>, events: seq<Event>, k: nat)
    requires Run(trace, events) && k < |events| && events[k].ReadReady?
    ensures Shaped(trace[k].session)
    ensures Pending(trace[k].session) == []
  {
    InvHolds(trace, events, k);
  }

  /** Only a real error stops a started connection; a would-block answer never loses its turn. */
  lemma OnlyErrorsClose(trace: seq<Connection>, events: seq<Event>, k: nat)
    requires Run(trace, events) && k < |events|
    ensures !trace[k + 1].open <==>
      (events[k] != Start &&
       (events[k].waitError.Failed? || (events[k].waitError.NoError? && events[k].error.Failed?)))
  {
    InvHolds(trace, events, k);
  }

  // ----- The objects -----

  class SessionObject {
    const data: array<Byte>
    var mode: Mode
    var offset: nat
    var length: nat

    ghost predicate Valid()
      reads this
    {
      data.Length == BUFFER_SIZE && offset + length <= BUFFER_SIZE
    }

    ghost function Value(): (s: Session)
      reads this, data
      requires Valid()
      ensures Shaped(s)
    {
      Session(mode, data[..], offset, length)
    }

    constructor ()
      ensures Valid() && fresh(data)
      ensures mode == Reading && offset == length == 0
    {
      data := new Byte[BUFFER_SIZE];
      mode, offset, length := Reading, 0, 0;
    }

    /** `chunk` is what `read_some` puts at the start of the buffer. */
    method Read(chunk: seq<Byte>)
      requires Valid() && |chunk| <= BUFFER_SIZE
      modifies this, data
      ensures Valid() && Value() == DoRead(old(Value()), chunk)
    {
      if |chunk| > 0 {
        ghost var was := data[..];
        forall i | 0 <= i < |chunk| {
          data[i] := chunk[i];
        }
        assert data[..] == chunk + was[|chunk|..];
        mode, offset, length := Writing, 0, |chunk|;
      } else {
        assert chunk == [];
      }
    }

    /** `count` is how much of the write buffer `write_some` takes; those bytes go out. */
    method Write(count: nat) returns (out: seq<Byte>)
      requires Valid() && count <= length
      modifies this
      ensures Valid() && Value() == DoWrite(old(Value()), count)
      ensures out == Pending(old(Value()))[..count]
    {
      out := data[offset..offset + count];
      assert out == data[..][offset..offset + length][..count];
      if count > 0 {
        offset, length := offset + count, length - count;
        mode := if length > 0 then Writing else Reading;
      }
    }
  }

  class ConnectionObject {
    const session: SessionObject
    var readInProgress: bool
    var writeInProgress: bool
    // the socket, as far as it matters here
    var started: bool
    var open: bool
    var readWaits: nat
    var writeWaits: nat
    var received: seq<Byte>
    var sent: seq<Byte>

    ghost function Value(): (c: Connection)
      reads this, session, session.data
      requires session.Valid()
      ensures Shaped(c.session)
    {
      Connection(session.Value(), readInProgress, writeInProgress, started, open,
                 readWaits, writeWaits, received, sent)
    }

    constructor ()
      ensures session.Valid() && fresh(session) && fresh(session.data)
      ensures Initial(Value())
    {
      session := new SessionObject();
      readInProgress, writeInProgress, started, open := false, false, false, true;
      readWaits, writeWaits, received, sent := 0, 0, [], [];
    }

    method StartOperationsNow()
      requires session.Valid()
      modifies this
      ensures Value() == StartOperations(old(Value()))
    {
      if session.mode.Reading? && !readInProgress {
        readInProgress := true;
        readWaits := readWaits + 1;
      }
      if session.mode.Writing? && !writeInProgress {
        writeInProgress := true;
        writeWaits := writeWaits + 1;
      }
    }

    method Begin()
      requires session.Valid() && !started
      modifies this
      ensures Value() == Apply(old(Value()), Start)
    {
      started := true;
      StartOperationsNow();
    }

    method HandleRead(waitError: Error, chunk: seq<Byte>, error: Error)
      requires session.Valid() && readWaits > 0 && |chunk| <= BUFFER_SIZE
      modifies this, session, session.data
      ensures session.Valid() && Value() == Apply(old(Value()), ReadReady(waitError, chunk, error))
    {
      readInProgress := false;
      readWaits := readWaits - 1;
      var ec := waitError;
      if ec.NoError? {
        session.Read(chunk);
        received := received + chunk;
        ec := error;
      }
      if ec.NoError? || ec.WouldBlock? {
        StartOperationsNow();
      } else {
        open := false;
      }
    }

    method HandleWrite(waitError: Error, count: nat, error: Error)
      requires session.Valid() && writeWaits > 0 && count <= session.length
      modifies this, session
      ensures session.Valid() && Value() == Apply(old(Value()), WriteReady(waitError, count, error))
    {
      writeInProgress := false;
      writeWaits := writeWaits - 1;
      var ec := waitError;
      if ec.NoError? {
        var out := session.Write(count);
        sent := sent + out;
        ec := error;
      }
      if ec.NoError? || ec.WouldBlock? {
        StartOperationsNow();
      } else {
        open := false;
      }
    }
  }
}
