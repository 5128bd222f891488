/** The receiver of Trabalho2/atividade_entrega_fms.c: one `switch` over an
    enumerated state. A finished frame leaves the machine in `MessageOk` or
    `MessageError`, and the byte after it, whatever its value, only resets the
    machine to `WaitStx`. */
module SwitchFsm {
  import opened Protocol
  import Codec

  /** `ProtocolState`. */
  datatype State = WaitStx | WaitQtd | WaitData | WaitChk | WaitEtx | MessageOk | MessageError

  /** A whole payload has been received: `dados[0..qtd_dados)` is filled and
      `checksum_calc` is its checksum. */
  predicate Received(h: Handler<State>)
  {
    0 < h.qtdDados && h.dadosCount == h.qtdDados &&
    h.checksumCalc == Checksum(h.dados[..h.qtdDados])
  }

  /** What holds of the registers between two calls of `protocol_process_byte`
      once `protocol_init` has run. */
  predicate Inv(h: Handler<State>)
  {
    match h.state
    case WaitStx | WaitQtd => h.dadosCount == 0 && h.checksumCalc == 0 && !h.messageReady
    case WaitData =>
      h.dadosCount < h.qtdDados &&
      h.checksumCalc == Checksum(h.dados[..h.dadosCount]) && !h.messageReady
    case WaitChk | WaitEtx | MessageError => Received(h) && !h.messageReady
    case MessageOk => Received(h) && h.checksumRecv == h.checksumCalc && h.messageReady
  }

  /** The registers as `protocol_init` leaves them. */
  function Initial(): (h: Handler<State>)
    ensures Inv(h) && h.state == WaitStx
  {
    Handler(WaitStx, 0, seq(MaxDataSize, _ => 0), 0, 0, 0, false)
  }

  /** The registers as `protocol_reset` leaves them: back to `WaitStx` with
      the counters and the ready flag cleared; the length, the buffer and the
      received checksum keep their values. */
  function AfterReset(h: Handler<State>): (r: Handler<State>)
    ensures Inv(r) && r.state == WaitStx
  {
    h.(state := WaitStx, dadosCount := 0, checksumCalc := 0, messageReady := false)
  }

  /** One call of `protocol_process_byte` on the registers `h`: the new
      registers and the status returned. Only the end byte of a frame yields
      an outcome, and it is `Success` exactly when that byte is ETX and the
      running checksum equals the received one. */
  function Next(h: Handler<State>, b: Byte): (r: (Handler<State>, Status))
    ensures r.1 != Waiting <==> h.state == WaitEtx
    ensures r.1 == Success <==> h.state == WaitEtx && b == ETX && h.checksumCalc == h.checksumRecv
    ensures h.state in {MessageOk, MessageError} ==> r.0 == AfterReset(h)
  {
    match h.state
    case WaitStx =>
      if b == STX then (h.(state := WaitQtd, dadosCount := 0, checksumCalc := 0, messageReady := false), Waiting)
      else (h, Waiting)
    case WaitQtd =>
      if b > 0 then (h.(qtdDados := b, state := WaitData), Waiting)
      else (h.(state := WaitStx), Waiting)
    case WaitData =>
      // `dados_count` and `checksum_calc` are `uint8_t`: both additions wrap.
      var stored := h.(dados := h.dados[h.dadosCount := b],
                       checksumCalc := (h.checksumCalc + b) % 256,
                       dadosCount := (h.dadosCount + 1) % 256);
      (if stored.dadosCount >= stored.qtdDados then stored.(state := WaitChk) else stored, Waiting)
    case WaitChk =>
      (h.(checksumRecv := b, state := WaitEtx), Waiting)
    case WaitEtx =>
      if b == ETX && h.checksumCalc == h.checksumRecv then
        (h.(state := MessageOk, messageReady := true), Success)
      else
        (h.(state := MessageError), Error)
    case MessageOk | MessageError =>
      (AfterReset(h), Waiting)
  }

  /** Every call keeps the invariant: in particular `dados_count` stays below
      `qtd_dados` (at most 255) while data arrive, so neither its increment nor
      the buffer index ever overflows, and `checksum_calc` is always the
      checksum of the bytes received so far. `message_ready` is set exactly
      by the call that returns `Success`. */
  lemma NextPreservesInv(h: Handler<State>, b: Byte)
    requires Inv(h)
    ensures Inv(Next(h, b).0)
    ensures Next(h, b).0.messageReady <==> Next(h, b).1 == Success
  {
    if h.state == WaitData {
      ChecksumAt(h.dados, h.dadosCount, b);
      var h1 := Next(h, b).0;
      assert h1.dadosCount == h.dadosCount + 1;
      assert h1.dados[..h1.dadosCount] == h.dados[h.dadosCount := b][..h.dadosCount + 1];
    }
  }

  /** Feeding `bytes` one at a time: the final registers and every status. */
  function Run(h: Handler<State>, bytes: seq<Byte>): (r: (Handler<State>, seq<Status>))
    ensures |r.1| == |bytes|
    decreases |bytes|
  {
    if bytes == [] then (h, [])
    else
      var step := Next(h, bytes[0]);
      var rest := Run(step.0, bytes[1..]);
      (rest.0, [step.1] + rest.1)
  }

  /** The invariant holds after any sequence of bytes. */
  lemma {:induction false} RunPreservesInv(h: Handler<State>, bytes: seq<Byte>)
    requires Inv(h)
    ensures Inv(Run(h, bytes).0)
    decreases |bytes|
  {
    if bytes != [] {
      NextPreservesInv(h, bytes[0]);
      RunPreservesInv(Next(h, bytes[0]).0, bytes[1..]);
    }
  }

  /** Feeding two byte strings in a row is feeding the first, then the second
      from where the first left the machine. */
  lemma {:induction false} RunAppend(h: Handler<State>, a: seq<Byte>, b: seq<Byte>)
    ensures Run(h, a + b) == (Run(Run(h, a).0, b).0, Run(h, a).1 + Run(Run(h, a).0, b).1)
    decreases |a|
  {
    if a == [] {
      assert a + b == b;
      assert Run(h, a) == (h, []);
      assert [] + Run(h, b).1 == Run(h, b).1;
    } else {
      var step := Next(h, a[0]);
      assert (a + b)[0] == a[0] && (a + b)[1..] == a[1..] + b;
      RunAppend(step.0, a[1..], b);
      var mid := Run(step.0, a[1..]);
      assert [step.1] + (mid.1 + Run(mid.0, b).1) == ([step.1] + mid.1) + Run(mid.0, b).1;
    }
  }

  /** Feeding a single byte is one call of `Next`. */
  lemma RunOne(h: Handler<State>, b: Byte)
    ensures Run(h, [b]) == (Next(h, b).0, [Next(h, b).1])
  {
    assert [b][1..] == [];
    assert [Next(h, b).1] + [] == [Next(h, b).1];
  }

  /** `RunAppend` with the two partial runs already known. */
  lemma RunThen(h: Handler<State>, a: seq<Byte>, b: seq<Byte>,
                ra: (Handler<State>, seq<Status>), rb: (Handler<State>, seq<Status>))
    requires Run(h, a) == ra && Run(ra.0, b) == rb
    ensures Run(h, a + b) == (rb.0, ra.1 + rb.1)
  {
    RunAppend(h, a, b);
  }

  /** Bytes other than STX seen in `WaitStx` are discarded: nothing changes and
      every call returns `Waiting`, never `Error`. */
  lemma {:induction false} GarbageIgnored(h: Handler<State>, bytes: seq<Byte>)
    requires h.state == WaitStx
    requires forall i :: 0 <= i < |bytes| ==> bytes[i] != STX
    ensures Run(h, bytes) == (h, Waits(|bytes|))
    decreases |bytes|
  {
    if bytes != [] {
      GarbageIgnored(h, bytes[1..]);
    }
  }

  /** One payload byte: stored at `dados[dados_count]`, added to the running
      checksum and counted; the state leaves `WaitData` exactly when the count
      reaches `qtd_dados`. */
  lemma DataStep(h: Handler<State>, b: Byte)
    requires Inv(h) && h.state == WaitData
    ensures Next(h, b) ==
      (h.(state := if h.dadosCount + 1 == h.qtdDados then WaitChk else WaitData,
          dados := h.dados[h.dadosCount := b],
          dadosCount := h.dadosCount + 1,
          checksumCalc := Checksum(h.dados[..h.dadosCount] + [b])),
       Waiting)
  {
    ChecksumAt(h.dados, h.dadosCount, b);
  }

  /** The registers once the payload bytes `data` have completed the frame
      whose first `dados_count` bytes `h` already holds. */
  function DataDone(h: Handler<State>, data: seq<Byte>): Handler<State>
    requires h.dadosCount + |data| == h.qtdDados
  {
    h.(state := WaitChk,
       dados := h.dados[..h.dadosCount] + data + h.dados[h.qtdDados..],
       dadosCount := h.qtdDados,
       checksumCalc := Checksum(h.dados[..h.dadosCount] + data))
  }

  /** Completing the frame after one more stored byte is completing it from
      before that byte. */
  lemma DataDoneShift(h: Handler<State>, data: seq<Byte>)
    requires Inv(h) && h.state == WaitData
    requires h.dadosCount + |data| == h.qtdDados && |data| >= 2
    ensures DataDone(Next(h, data[0]).0, data[1..]) == DataDone(h, data)
  {
    var c, q := h.dadosCount, h.qtdDados;
    DataStep(h, data[0]);
    StoreAt(h.dados, c, data[0], q);
    assert h.dados[..c] + [data[0]] + data[1..] == h.dados[..c] + data;
  }

  /** The data phase: the remaining payload bytes are stored after those already
      received, the running checksum becomes the checksum of the whole payload,
      and the machine moves to `WaitChk` exactly as the last one arrives. */
  lemma {:induction false} DataPhase(h: Handler<State>, data: seq<Byte>)
    requires Inv(h) && h.state == WaitData
    requires h.dadosCount + |data| == h.qtdDados
    ensures Run(h, data) == (DataDone(h, data), Waits(|data|))
    decreases |data|
  {
    var c, q := h.dadosCount, h.qtdDados;
    DataStep(h, data[0]);
    var h1 := Next(h, data[0]).0;
    var rest := Run(h1, data[1..]);
    assert Run(h, data) == (rest.0, [Waiting] + rest.1);
    if |data| == 1 {
      StoreAt(h.dados, c, data[0], q);
      assert h1.dados == h.dados[..c] + data + h.dados[q..];
      assert rest == (h1, []) && DataDone(h, data) == h1;
    } else {
      NextPreservesInv(h, data[0]);
      DataPhase(h1, data[1..]);
      DataDoneShift(h, data);
    }
  }

  /** STX then a non-zero length: the counters and the ready flag are cleared,
      the length is stored and the machine waits for data. */
  lemma Header(h: Handler<State>, n: Byte)
    requires h.state == WaitStx && n > 0
    ensures Run(h, [STX, n]) ==
      (h.(state := WaitData, qtdDados := n, dadosCount := 0, checksumCalc := 0, messageReady := false), Waits(2))
  {
    var h1 := Next(h, STX).0;
    assert [STX, n][1..] == [n] && [n][1..] == [];
    assert Run(h, [STX, n]) == (Run(h1, [n]).0, [Waiting] + Run(h1, [n]).1);
  }

  /** The checksum byte is stored; the end byte decides the outcome. */
  lemma Trailer(h: Handler<State>, c: Byte, e: Byte)
    requires h.state == WaitChk
    ensures var ok := e == ETX && h.checksumCalc == c;
      Run(h, [c, e]) ==
        (h.(checksumRecv := c, state := if ok then MessageOk else MessageError, messageReady := ok || h.messageReady),
         Waits(1) + [if ok then Success else Error])
  {
    var h1 := Next(h, c).0;
    var last := Next(h1, e);
    assert [c, e][1..] == [e] && [e][1..] == [];
    assert Run(h1, [e]) == (last.0, [last.1] + []);
    assert Run(h, [c, e]) == (last.0, [Waiting] + ([last.1] + []));
    assert Waits(1) == [Waiting];
    assert [Waiting] + ([last.1] + []) == Waits(1) + [last.1];
    var ok := e == ETX && h.checksumCalc == c;
    assert last.1 == (if ok then Success else Error);
    assert last.0 == h.(checksumRecv := c, state := if ok then MessageOk else MessageError,
                        messageReady := ok || h.messageReady);
  }

  /** The part of a frame after its header: payload, checksum byte, end byte. */
  lemma FrameBody(h: Handler<State>, data: seq<Byte>, c: Byte, e: Byte)
    requires h.state == WaitData && h.dadosCount == 0 && h.checksumCalc == 0 && !h.messageReady
    requires |data| == h.qtdDados > 0
    ensures var ok := e == ETX && c == Checksum(data);
      Run(h, data + [c, e]) ==
        (h.(state := if ok then MessageOk else MessageError,
            dados := data + h.dados[|data|..],
            dadosCount := |data|,
            checksumRecv := c,
            checksumCalc := Checksum(data),
            messageReady := ok),
         Waits(|data|) + (Waits(1) + [if ok then Success else Error]))
  {
    DataPhase(h, data);
    var h3 := DataDone(h, data);
    assert h.dados[..0] + data == data;
    Trailer(h3, c, e);
    RunAppend(h, data, [c, e]);
  }

  /** A whole frame `STX | n | data | c | e` fed in `WaitStx`: every byte but
      the last returns `Waiting`; the last returns `Success`, with the state
      `MessageOk` and `message_ready` set, exactly when `e` is ETX and `c` is the
      checksum of `data`, and `Error` with the state `MessageError` otherwise.
      The payload is in `dados[0..n)`; the rest of the buffer is untouched. */
  lemma ReceiveFrame(h: Handler<State>, data: seq<Byte>, c: Byte, e: Byte)
    requires h.state == WaitStx
    requires 1 <= |data| <= 255
    ensures var ok := e == ETX && c == Checksum(data);
      var r := Run(h, [STX, |data|] + data + [c, e]);
      r.1 == Waits(|data| + 3) + [if ok then Success else Error] &&
      r.0 == h.(state := if ok then MessageOk else MessageError,
                qtdDados := |data|,
                dados := data + h.dados[|data|..],
                dadosCount := |data|,
                checksumRecv := c,
                checksumCalc := Checksum(data),
                messageReady := ok)
  {
    var n: Byte := |data|;
    var h2 := h.(state := WaitData, qtdDados := n, dadosCount := 0, checksumCalc := 0, messageReady := false);
    Header(h, n);
    FrameBody(h2, data, c, e);
    RunAppend(h, [STX, n], data + [c, e]);
    ConcatAssoc([STX, n], data, [c, e]);
    WaitsThen(2, n, 1, if e == ETX && c == Checksum(data) then Success else Error);
  }

  /** STX followed by a zero length aborts the frame: the registers are as
      `protocol_reset` leaves them and neither byte yields an outcome. */
  lemma ZeroLengthRejected(h: Handler<State>)
    requires h.state == WaitStx
    ensures Run(h, [STX, 0]) == (AfterReset(h), Waits(2))
  {
    var h1 := Next(h, STX).0;
    assert [STX, 0][1..] == [0] && [0][1..] == [];
    assert Run(h, [STX, 0]) == (Run(h1, [0]).0, [Waiting] + Run(h1, [0]).1);
  }

  /** A frame built by `protocol_create_message` is accepted: fed to a receiver
      waiting for STX it yields `Success` on its last byte and nothing before,
      leaves the payload in `dados[0..qtd)`, the length in `qtd_dados` and
      `message_ready` set. */
  lemma CreateThenReceive(h: Handler<State>, data: seq<Byte>, qtd: Byte, bufferSize: Byte)
    requires h.state == WaitStx && qtd <= |data|
    requires Codec.Create(data, qtd, bufferSize).status == Success
    ensures var w := Codec.Create(data, qtd, bufferSize).written;
      var r := Run(h, w);
      r.1 == Waits(|w| - 1) + [Success] &&
      r.0.state == MessageOk && r.0.messageReady &&
      r.0.qtdDados == qtd && r.0.dados[..qtd] == data[..qtd]
  {
    var d := data[..qtd];
    ReceiveFrame(h, d, Checksum(d), ETX);
    assert (d + h.dados[qtd..])[..qtd] == d;
  }

  /** The builder as written (with the 8-bit `msg_size`) produces the same
      bytes whenever it succeeds, including payloads of 251 bytes or more, and
      the receiver accepts every such frame. */
  lemma CreateAsWrittenThenReceive(h: Handler<State>, data: seq<Byte>, qtd: Byte, bufferSize: Byte)
    requires h.state == WaitStx && qtd <= |data|
    requires Codec.CreateAsWritten(data, qtd, bufferSize).status == Success
    ensures var w := Codec.CreateAsWritten(data, qtd, bufferSize).written;
      var r := Run(h, w);
      r.1 == Waits(|w| - 1) + [Success] &&
      r.0.state == MessageOk && r.0.messageReady &&
      r.0.qtdDados == qtd && r.0.dados[..qtd] == data[..qtd]
  {
    var d := data[..qtd];
    ReceiveFrame(h, d, Checksum(d), ETX);
    assert (d + h.dados[qtd..])[..qtd] == d;
  }

  /** A payload byte altered in transit, with the checksum and end byte of the
      original frame, is always rejected with `Error`: a single changed byte
      always changes the 8-bit sum. */
  lemma CorruptedByteRejected(h: Handler<State>, data: seq<Byte>, i: nat, x: Byte)
    requires h.state == WaitStx && 1 <= |data| <= 255
    requires i < |data| && x != data[i]
    ensures var r := Run(h, [STX, |data|] + data[i := x] + [Checksum(data), ETX]);
      r.1 == Waits(|data| + 3) + [Error] && r.0.state == MessageError && !r.0.messageReady
  {
    ChecksumDetectsSingleByteChange(data, i, x);
    ReceiveFrame(h, data[i := x], Checksum(data), ETX);
  }

  /** The byte after an outcome is consumed by the automatic reset, even when
      it is the STX of the next frame: a frame sent right after another, with
      no STX among its remaining bytes, yields no outcome at all. */
  lemma BackToBackSecondFrameLost(h: Handler<State>, data: seq<Byte>, rest: seq<Byte>)
    requires h.state == WaitStx && 1 <= |data| <= 255
    requires forall i :: 0 <= i < |rest| ==> rest[i] != STX
    ensures Run(h, Frame(data) + [STX] + rest).1 == Waits(|data| + 3) + [Success] + Waits(1 + |rest|)
  {
    ReceiveFrame(h, data, Checksum(data), ETX);
    var r1 := Run(h, Frame(data));
    var r2 := Next(r1.0, STX);
    assert r2 == (AfterReset(r1.0), Waiting);
    RunOne(r1.0, STX);
    GarbageIgnored(r2.0, rest);
    RunThen(r1.0, [STX], rest, (r2.0, [Waiting]), (r2.0, Waits(|rest|)));
    RunThen(h, Frame(data), [STX] + rest, r1, (r2.0, [Waiting] + Waits(|rest|)));
    ConcatAssoc(Frame(data), [STX], rest);
    assert [Waiting] + Waits(|rest|) == Waits(1 + |rest|);
  }

  /** The source's garbage scenario: 0xFF and 0x00 leave the machine in
      `WaitStx`, and the STX after them moves it to `WaitQtd`. */
  lemma GarbageThenStxExample(h: Handler<State>)
    requires h.state == WaitStx
    ensures Run(h, [0xFF, 0x00]).0.state == WaitStx
    ensures Run(h, [0xFF, 0x00, STX]).0.state == WaitQtd
  {
    GarbageIgnored(h, [0xFF, 0x00]);
    RunOne(h, STX);
    RunAppend(h, [0xFF, 0x00], [STX]);
    assert [0xFF, 0x00] + [STX] == [0xFF, 0x00, STX];
  }

  /** The source's state-transition scenario: STX, length 1, one data byte
      and a checksum byte walk through `WaitQtd`, `WaitData`, `WaitChk` and
      `WaitEtx`. */
  lemma StateTransitionsExample(h: Handler<State>)
    requires h.state == WaitStx
    ensures Run(h, [STX]).0.state == WaitQtd
    ensures Run(h, [STX, 1]).0.state == WaitData
    ensures Run(h, [STX, 1, 0x42]).0.state == WaitChk
    ensures Run(h, [STX, 1, 0x42, 0x42]).0.state == WaitEtx
  {
    RunOne(h, STX);
    Header(h, 1);
    var h2 := Run(h, [STX, 1]).0;
    RunOne(h2, 0x42);
    RunAppend(h, [STX, 1], [0x42]);
    assert [STX, 1] + [0x42] == [STX, 1, 0x42];
    var h3 := Run(h, [STX, 1, 0x42]).0;
    RunOne(h3, 0x42);
    RunAppend(h, [STX, 1, 0x42], [0x42]);
    assert [STX, 1, 0x42] + [0x42] == [STX, 1, 0x42, 0x42];
  }

  /** The valid-message scenario of the source's tests: STX, length 2, bytes
      0x10 and 0x20, checksum 0x30, ETX, fed to a receiver waiting for STX
      (as `protocol_init` leaves it). */
  lemma ValidMessageExample(h: Handler<State>)
    requires h.state == WaitStx
    ensures var r := Run(h, [STX, 2, 0x10, 0x20, 0x30, ETX]);
      r.1[5] == Success && r.0.messageReady && r.0.qtdDados == 2 &&
      r.0.dados[0] == 0x10 && r.0.dados[1] == 0x20
  {
    var data: seq<Byte> := [0x10, 0x20];
    assert Checksum(data) == 0x30 by {
      ChecksumSnoc([0x10], 0x20);
      ChecksumSnoc([], 0x10);
      assert [0x10] + [0x20] == data;
    }
    assert [STX, 2] + data + [0x30, ETX] == [STX, 2, 0x10, 0x20, 0x30, ETX];
    ReceiveFrame(h, data, 0x30, ETX);
  }

  /** The same frame with the wrong checksum byte 0xFF ends in `Error` and
      leaves no message ready. */
  lemma InvalidChecksumExample(h: Handler<State>)
    requires h.state == WaitStx
    ensures var r := Run(h, [STX, 2, 0x10, 0x20, 0xFF, ETX]);
      r.1[5] == Error && !r.0.messageReady
  {
    ChecksumSnoc([0x10], 0x20);
    ChecksumSnoc([], 0x10);
    assert [0x10] + [0x20] == [0x10, 0x20];
    assert [STX, 2] + [0x10, 0x20] + [0xFF, ETX] == [STX, 2, 0x10, 0x20, 0xFF, ETX];
    ReceiveFrame(h, [0x10, 0x20], 0xFF, ETX);
  }

  /** A one-byte frame ends in `MessageOk`, and the next byte, whatever it is,
      resets the machine to `WaitStx`. */
  lemma ResetAfterMessageExample(h: Handler<State>, b: Byte)
    requires h.state == WaitStx
    ensures Run(h, [STX, 1, 0x42, 0x42, ETX]).0.state == MessageOk
    ensures Run(h, [STX, 1, 0x42, 0x42, ETX, b]).0.state == WaitStx
  {
    ChecksumSnoc([], 0x42);
    assert [STX, 1] + [0x42] + [0x42, ETX] == [STX, 1, 0x42, 0x42, ETX];
    ReceiveFrame(h, [0x42], 0x42, ETX);
    var r := Run(h, [STX, 1, 0x42, 0x42, ETX]);
    RunOne(r.0, b);
    RunAppend(h, [STX, 1, 0x42, 0x42, ETX], [b]);
    assert [STX, 1, 0x42, 0x42, ETX] + [b] == [STX, 1, 0x42, 0x42, ETX, b];
  }

  /** A `ProtocolHandler` record updated in place by the protocol functions. */
  class ProtocolHandler {
    var state: State
    var qtdDados: Byte
    var dados: array<Byte>
    var dadosCount: Byte
    var checksumRecv: Byte
    var checksumCalc: Byte
    var messageReady: bool

    /** The fields as a value. */
    ghost function Regs(): Handler<State>
      reads this, dados
      requires dados.Length == MaxDataSize
    {
      Handler(state, qtdDados, dados[..], dadosCount, checksumRecv, checksumCalc, messageReady)
    }

    ghost predicate Valid()
      reads this, dados
    {
      dados.Length == MaxDataSize && Inv(Regs())
    }

    /** A handler with its own buffer, initialised by `protocol_init`. */
    constructor ()
      ensures Valid() && fresh(dados) && Regs() == Initial()
    {
      dados := new Byte[MaxDataSize];
      new;
      Init();
    }

    /** `protocol_init`: every register and every byte of `dados` cleared. */
    method Init()
      requires dados.Length == MaxDataSize
      modifies this, dados
      ensures dados == old(dados) && Valid() && Regs() == Initial()
    {
      state := WaitStx;
      qtdDados := 0;
      dadosCount := 0;
      checksumRecv := 0;
      checksumCalc := 0;
      messageReady := false;
      forall i | 0 <= i < dados.Length {
        dados[i] := 0;
      }
      assert dados[..] == seq(MaxDataSize, _ => 0);
    }

    /** `protocol_reset`. */
    method Reset()
      requires dados.Length == MaxDataSize
      modifies this
      ensures dados == old(dados) && Valid() && Regs() == AfterReset(old(Regs()))
    {
      state := WaitStx;
      dadosCount := 0;
      checksumCalc := 0;
      messageReady := false;
    }

    /** `protocol_process_byte`: the registers move as `Next` says and its
        status is returned; a valid handler stays valid. */
    method ProcessByte(b: Byte) returns (status: Status)
      requires dados.Length == MaxDataSize
      modifies this, dados
      ensures dados == old(dados)
      ensures (Regs(), status) == Next(old(Regs()), b)
      ensures old(Valid()) ==> Valid()
    {
      ghost var h := Regs();
      ghost var wasValid := Valid();
      status := Waiting;
      match state {
        case WaitStx =>
          if b == STX {
            state := WaitQtd;
            dadosCount := 0;
            checksumCalc := 0;
            messageReady := false;
          }
        case WaitQtd =>
          if b > 0 {
            qtdDados := b;
            state := WaitData;
          } else {
            state := WaitStx;
          }
        case WaitData =>
          ghost var c := dadosCount;
          dados[dadosCount] := b;
          assert dados[..] == h.dados[c := b];
          checksumCalc := (checksumCalc + b) % 256;
          dadosCount := (dadosCount + 1) % 256;
          if dadosCount >= qtdDados {
            state := WaitChk;
          }
        case WaitChk =>
          checksumRecv := b;
          state := WaitEtx;
        case WaitEtx =>
          if b == ETX && checksumCalc == checksumRecv {
            state := MessageOk;
            messageReady := true;
            status := Success;
          } else {
            state := MessageError;
            status := Error;
          }
        case MessageOk | MessageError =>
          Reset();
      }
      assert (Regs(), status) == Next(h, b);
      if wasValid {
        ValidAfterNext(h, b);
      }
    }

    /** A valid handler stays valid through a call of `Next`. */
    lemma ValidAfterNext(h: Handler<State>, b: Byte)
      requires Inv(h) && dados.Length == MaxDataSize && Regs() == Next(h, b).0
      ensures Valid()
    {
      NextPreservesInv(h, b);
    }

    /** `protocol_message_ready`: on a valid handler, set exactly in
        `MessageOk`, that is when the last frame was accepted. */
    method MessageReady() returns (ready: bool)
      ensures ready == messageReady
      ensures Valid() ==> (ready <==> state == MessageOk)
    {
      ready := messageReady;
    }

    /** `protocol_get_data_count`: the length announced by the last frame;
        when a message is ready, `dados[0..count)` is its payload and its
        checksum is the one received. */
    method GetDataCount() returns (count: Byte)
      ensures count == qtdDados
      ensures Valid() && messageReady ==> 0 < count && Checksum(dados[..count]) == checksumRecv
    {
      count := qtdDados;
    }
  }
}
