/** The receiver of Trabalho3/atvdd_fsm_tabela_de_estados.c (also present,
    byte for byte, as Trabalho2/Trabalho3/atvdd_fsm_tabela_de_estados.c): the
    current state is a pointer to one of five state functions, and
    `protocol_process_byte` calls it. The end byte of a frame sends the
    machine straight back to waiting for STX, so frames may follow each other
    without a gap, and `message_ready` stays set until the next STX. */
module TableFsm {
  import opened Protocol
  import Codec

  /** The five state functions `estado_atual` can point to: `espera_stx`,
      `espera_qtd`, `espera_dados`, `espera_checksum`, `espera_etx`. */
  datatype State = WaitStx | WaitQtd | WaitData | WaitChecksum | WaitEtx

  /** A whole payload has been received: `dados[0..qtd_dados)` is filled and
      `checksum_calc` is its checksum. */
  predicate Received(h: Handler<State>)
  {
    0 < h.qtdDados && h.dadosCount == h.qtdDados &&
    h.checksumCalc == Checksum(h.dados[..h.qtdDados])
  }

  /** What holds of the registers between two calls of `protocol_process_byte`
      once `protocol_init` has run. A set ready flag is only seen in `WaitStx`,
      and it vouches for the payload still in the buffer. */
  predicate Inv(h: Handler<State>)
  {
    match h.state
    case WaitStx => h.messageReady ==> Received(h) && h.checksumRecv == h.checksumCalc
    case WaitQtd => h.dadosCount == 0 && h.checksumCalc == 0 && !h.messageReady
    case WaitData =>
      h.dadosCount < h.qtdDados &&
      h.checksumCalc == Checksum(h.dados[..h.dadosCount]) && !h.messageReady
    case WaitChecksum | WaitEtx => Received(h) && !h.messageReady
  }

  /** The registers as `protocol_init` leaves them. */
  function Initial(): (h: Handler<State>)
    ensures Inv(h) && h.state == WaitStx
  {
    Handler(WaitStx, 0, seq(MaxDataSize, _ => 0), 0, 0, 0, false)
  }

  /** `espera_stx`: only STX starts a frame, clearing the counters and the
      ready flag; any other byte is ignored. */
  function StepStx(h: Handler<State>, b: Byte): (r: (Handler<State>, Status))
    ensures r.1 == Waiting
    ensures b == STX ==> r.0.state == WaitQtd
    ensures b != STX ==> r.0 == h
    ensures b == STX ==> r.0.dadosCount == 0 && r.0.checksumCalc == 0 && !r.0.messageReady
    ensures r.0.dados == h.dados && r.0.qtdDados == h.qtdDados && r.0.checksumRecv == h.checksumRecv
  {
    if b == STX then (h.(state := WaitQtd, dadosCount := 0, checksumCalc := 0, messageReady := false), Waiting)
    else (h, Waiting)
  }

  /** `espera_qtd`: a non-zero length is stored, zero restarts the search. */
  function StepQtd(h: Handler<State>, b: Byte): (r: (Handler<State>, Status))
    ensures r.1 == Waiting
    ensures r.0.state == WaitData <==> b > 0
    ensures r.0.state == WaitStx <==> b == 0
    ensures b > 0 ==> r.0.qtdDados == b
    ensures b == 0 ==> r.0.qtdDados == h.qtdDados
    ensures r.0.dados == h.dados && r.0.dadosCount == h.dadosCount && r.0.checksumCalc == h.checksumCalc
    ensures r.0.checksumRecv == h.checksumRecv && r.0.messageReady == h.messageReady
  {
    if b > 0 then (h.(qtdDados := b, state := WaitData), Waiting)
    else (h.(state := WaitStx), Waiting)
  }

  /** `espera_dados`: store, add to the running checksum, count. The counter
      and the checksum are `uint8_t`, so both additions wrap. */
  function StepDados(h: Handler<State>, b: Byte): (r: (Handler<State>, Status))
    ensures r.1 == Waiting
    ensures h.dadosCount < h.qtdDados ==>
      r.0.dadosCount == h.dadosCount + 1 &&
      r.0.dados[..r.0.dadosCount] == h.dados[..h.dadosCount] + [b] &&
      r.0.dados[r.0.dadosCount..] == h.dados[r.0.dadosCount..] &&
      r.0.state == (if r.0.dadosCount == h.qtdDados then WaitChecksum else h.state)
    ensures r.0.checksumCalc == (h.checksumCalc + b) % 256
    ensures r.0.qtdDados == h.qtdDados && r.0.checksumRecv == h.checksumRecv && r.0.messageReady == h.messageReady
  {
    var stored := h.(dados := h.dados[h.dadosCount := b],
                     checksumCalc := (h.checksumCalc + b) % 256,
                     dadosCount := (h.dadosCount + 1) % 256);
    (if stored.dadosCount >= stored.qtdDados then stored.(state := WaitChecksum) else stored, Waiting)
  }

  /** `espera_checksum`: the received checksum is kept. */
  function StepChecksum(h: Handler<State>, b: Byte): (r: (Handler<State>, Status))
    ensures r.1 == Waiting && r.0.state == WaitEtx && r.0.checksumRecv == b
    ensures r.0.dados == h.dados && r.0.dadosCount == h.dadosCount && r.0.checksumCalc == h.checksumCalc
    ensures r.0.qtdDados == h.qtdDados && r.0.messageReady == h.messageReady
  {
    (h.(checksumRecv := b, state := WaitEtx), Waiting)
  }

  /** `espera_etx`: the outcome of the frame; either way the machine goes
      back to `WaitStx`. */
  function StepEtx(h: Handler<State>, b: Byte): (r: (Handler<State>, Status))
    ensures r.0.state == WaitStx && r.1 != Waiting
    ensures r.1 == Success <==> b == ETX && h.checksumCalc == h.checksumRecv
    ensures r.0.messageReady <==> r.1 == Success || h.messageReady
    ensures r.0.dados == h.dados && r.0.qtdDados == h.qtdDados
    ensures r.0.dadosCount == h.dadosCount && r.0.checksumCalc == h.checksumCalc && r.0.checksumRecv == h.checksumRecv
  {
    if b == ETX && h.checksumCalc == h.checksumRecv then
      (h.(messageReady := true, state := WaitStx), Success)
    else
      (h.(state := WaitStx), Error)
  }

  /** One call of `protocol_process_byte`: the state function `estado_atual`
      points to is applied. Only the end byte of a frame yields an outcome,
      `Success` exactly when it is ETX and the checksums agree, and after it
      the machine waits for the next STX. */
  function Next(h: Handler<State>, b: Byte): (r: (Handler<State>, Status))
    ensures r.1 != Waiting <==> h.state == WaitEtx
    ensures r.1 == Success <==> h.state == WaitEtx && b == ETX && h.checksumCalc == h.checksumRecv
    ensures h.state == WaitEtx ==> r.0.state == WaitStx
  {
    match h.state
    case WaitStx => StepStx(h, b)
    case WaitQtd => StepQtd(h, b)
    case WaitData => StepDados(h, b)
    case WaitChecksum => StepChecksum(h, b)
    case WaitEtx => StepEtx(h, b)
  }

  /** Every call keeps the invariant, so `dados_count` never wraps and never
      indexes past the buffer. The ready flag is set by a `Success` and
      otherwise kept until the next STX clears it. */
  lemma NextPreservesInv(h: Handler<State>, b: Byte)
    requires Inv(h)
    ensures Inv(Next(h, b).0)
    ensures Next(h, b).0.messageReady <==> Next(h, b).1 == Success || (h.messageReady && b != STX)
  {
    if h.state == WaitData {
      ChecksumAt(h.dados, h.dadosCount, b);
      var h1 := Next(h, b).0;
      assert h1.dadosCount == h.dadosCount + 1;
      assert h1.dados[..h1.dadosCount] == h.dados[h.dadosCount := b][..h.dadosCount + 1];
    }
  }

  /** Feeding `bytes` one at a time: the final registers and every status. */
  function Run(h: Handler<State>, bytes: seq<Byte>): (r: (Handler<State>, seq<Status>))
    ensures |r.1| == |bytes|
    decreases |bytes|
  {
    if bytes == [] then (h, [])
    else
      var step := Next(h, bytes[0]);
      var rest := Run(step.0, bytes[1..]);
      (rest.0, [step.1] + rest.1)
  }

  /** The invariant holds after any sequence of bytes. */
  lemma {:induction false} RunPreservesInv(h: Handler<State>, bytes: seq<Byte>)
    requires Inv(h)
    ensures Inv(Run(h, bytes).0)
    decreases |bytes|
  {
    if bytes != [] {
      NextPreservesInv(h, bytes[0]);
      RunPreservesInv(Next(h, bytes[0]).0, bytes[1..]);
    }
  }

  /** Feeding two byte strings in a row is feeding the first, then the second
      from where the first left the machine. */
  lemma {:induction false} RunAppend(h: Handler<State>, a: seq<Byte>, b: seq<Byte>)
    ensures Run(h, a + b) == (Run(Run(h, a).0, b).0, Run(h, a).1 + Run(Run(h, a).0, b).1)
    decreases |a|
  {
    if a == [] {
      assert a + b == b;
      assert Run(h, a) == (h, []);
      assert [] + Run(h, b).1 == Run(h, b).1;
    } else {
      var step := Next(h, a[0]);
      assert (a + b)[0] == a[0] && (a + b)[1..] == a[1..] + b;
      RunAppend(step.0, a[1..], b);
      var mid := Run(step.0, a[1..]);
      assert [step.1] + (mid.1 + Run(mid.0, b).1) == ([step.1] + mid.1) + Run(mid.0, b).1;
    }
  }

  /** Feeding a single byte is one call of `Next`. */
  lemma RunOne(h: Handler<State>, b: Byte)
    ensures Run(h, [b]) == (Next(h, b).0, [Next(h, b).1])
  {
    assert [b][1..] == [];
    assert [Next(h, b).1] + [] == [Next(h, b).1];
  }

  /** `RunAppend` with the two partial runs already known. */
  lemma RunThen(h: Handler<State>, a: seq<Byte>, b: seq<Byte>,
                ra: (Handler<State>, seq<Status>), rb: (Handler<State>, seq<Status>))
    requires Run(h, a) == ra && Run(ra.0, b) == rb
    ensures Run(h, a + b) == (rb.0, ra.1 + rb.1)
  {
    RunAppend(h, a, b);
  }

  /** Bytes other than STX seen in `WaitStx` are discarded: nothing changes,
      not even the ready flag, and every call returns `Waiting`. */
  lemma {:induction false} GarbageIgnored(h: Handler<State>, bytes: seq<Byte>)
    requires h.state == WaitStx
    requires forall i :: 0 <= i < |bytes| ==> bytes[i] != STX
    ensures Run(h, bytes) == (h, Waits(|bytes|))
    decreases |bytes|
  {
    if bytes != [] {
      GarbageIgnored(h, bytes[1..]);
    }
  }

  /** One payload byte: stored at `dados[dados_count]`, added to the running
      checksum and counted; the state leaves `WaitData` exactly when the count
      reaches `qtd_dados`. */
  lemma DataStep(h: Handler<State>, b: Byte)
    requires Inv(h) && h.state == WaitData
    ensures Next(h, b) ==
      (h.(state := if h.dadosCount + 1 == h.qtdDados then WaitChecksum else WaitData,
          dados := h.dados[h.dadosCount := b],
          dadosCount := h.dadosCount + 1,
          checksumCalc := Checksum(h.dados[..h.dadosCount] + [b])),
       Waiting)
  {
    ChecksumAt(h.dados, h.dadosCount, b);
  }

  /** The registers once the payload bytes `data` have completed the frame
      whose first `dados_count` bytes `h` already holds. */
  function DataDone(h: Handler<State>, data: seq<Byte>): Handler<State>
    requires h.dadosCount + |data| == h.qtdDados
  {
    h.(state := WaitChecksum,
       dados := h.dados[..h.dadosCount] + data + h.dados[h.qtdDados..],
       dadosCount := h.qtdDados,
       checksumCalc := Checksum(h.dados[..h.dadosCount] + data))
  }

  /** Completing the frame after one more stored byte is completing it from
      before that byte. */
  lemma DataDoneShift(h: Handler<State>, data: seq<Byte>)
    requires Inv(h) && h.state == WaitData
    requires h.dadosCount + |data| == h.qtdDados && |data| >= 2
    ensures DataDone(Next(h, data[0]).0, data[1..]) == DataDone(h, data)
  {
    var c, q := h.dadosCount, h.qtdDados;
    DataStep(h, data[0]);
    StoreAt(h.dados, c, data[0], q);
    assert h.dados[..c] + [data[0]] + data[1..] == h.dados[..c] + data;
  }

  /** The data phase: the remaining payload bytes are stored after those already
      received, the running checksum becomes the checksum of the whole payload,
      and the machine moves to `WaitChecksum` exactly as the last one arrives. */
  lemma {:induction false} DataPhase(h: Handler<State>, data: seq<Byte>)
    requires Inv(h) && h.state == WaitData
    requires h.dadosCount + |data| == h.qtdDados
    ensures Run(h, data) == (DataDone(h, data), Waits(|data|))
    decreases |data|
  {
    var c, q := h.dadosCount, h.qtdDados;
    DataStep(h, data[0]);
    var h1 := Next(h, data[0]).0;
    var rest := Run(h1, data[1..]);
    assert Run(h, data) == (rest.0, [Waiting] + rest.1);
    if |data| == 1 {
      StoreAt(h.dados, c, data[0], q);
      assert h1.dados == h.dados[..c] + data + h.dados[q..];
      assert rest == (h1, []) && DataDone(h, data) == h1;
    } else {
      NextPreservesInv(h, data[0]);
      DataPhase(h1, data[1..]);
      DataDoneShift(h, data);
    }
  }

  /** STX then a non-zero length: the counters and the ready flag are cleared,
      the length is stored and the machine waits for data. */
  lemma Header(h: Handler<State>, n: Byte)
    requires h.state == WaitStx && n > 0
    ensures Run(h, [STX, n]) ==
      (h.(state := WaitData, qtdDados := n, dadosCount := 0, checksumCalc := 0, messageReady := false), Waits(2))
  {
    var h1 := Next(h, STX).0;
    assert [STX, n][1..] == [n] && [n][1..] == [];
    assert Run(h, [STX, n]) == (Run(h1, [n]).0, [Waiting] + Run(h1, [n]).1);
  }

  /** STX followed by a zero length aborts the frame: the counters and the
      ready flag are cleared and the machine waits for STX again. */
  lemma ZeroLengthRejected(h: Handler<State>)
    requires h.state == WaitStx
    ensures Run(h, [STX, 0]) ==
      (h.(dadosCount := 0, checksumCalc := 0, messageReady := false), Waits(2))
  {
    var h1 := Next(h, STX).0;
    assert [STX, 0][1..] == [0] && [0][1..] == [];
    assert Run(h, [STX, 0]) == (Run(h1, [0]).0, [Waiting] + Run(h1, [0]).1);
  }

  /** The checksum byte is stored; the end byte decides the outcome and the
      machine returns to `WaitStx`. */
  lemma Trailer(h: Handler<State>, c: Byte, e: Byte)
    requires h.state == WaitChecksum
    ensures var ok := e == ETX && h.checksumCalc == c;
      Run(h, [c, e]) ==
        (h.(checksumRecv := c, state := WaitStx, messageReady := ok || h.messageReady),
         Waits(1) + [if ok then Success else Error])
  {
    var h1 := Next(h, c).0;
    var last := Next(h1, e);
    RunOne(h1, e);
    assert [c, e][1..] == [e];
    assert Run(h, [c, e]) == (last.0, [Waiting] + [last.1]);
    assert Waits(1) == [Waiting];
    var ok := e == ETX && h.checksumCalc == c;
    assert last.1 == (if ok then Success else Error);
    assert last.0 == h.(checksumRecv := c, state := WaitStx, messageReady := ok || h.messageReady);
  }

  /** The part of a frame after its header: payload, checksum byte, end byte. */
  lemma FrameBody(h: Handler<State>, data: seq<Byte>, c: Byte, e: Byte)
    requires h.state == WaitData && h.dadosCount == 0 && h.checksumCalc == 0 && !h.messageReady
    requires |data| == h.qtdDados > 0
    ensures var ok := e == ETX && c == Checksum(data);
      Run(h, data + [c, e]) ==
        (h.(state := WaitStx,
            dados := data + h.dados[|data|..],
            dadosCount := |data|,
            checksumRecv := c,
            checksumCalc := Checksum(data),
            messageReady := ok),
         Waits(|data|) + (Waits(1) + [if ok then Success else Error]))
  {
    DataPhase(h, data);
    var h3 := DataDone(h, data);
    assert h.dados[..0] + data == data;
    Trailer(h3, c, e);
    RunAppend(h, data, [c, e]);
  }

  /** A whole frame `STX | n | data | c | e` fed in `WaitStx`, whatever the
      ready flag: every byte but the last returns `Waiting`; the last returns
      `Success`, with `message_ready` set, exactly when `e` is ETX and `c` is
      the checksum of `data`, and `Error` otherwise. Either way the machine is
      back in `WaitStx`, the payload is in `dados[0..n)` and the rest of the
      buffer is untouched. */
  lemma ReceiveFrame(h: Handler<State>, data: seq<Byte>, c: Byte, e: Byte)
    requires h.state == WaitStx
    requires 1 <= |data| <= 255
    ensures var ok := e == ETX && c == Checksum(data);
      var r := Run(h, [STX, |data|] + data + [c, e]);
      r.1 == Waits(|data| + 3) + [if ok then Success else Error] &&
      r.0 == h.(qtdDados := |data|,
                dados := data + h.dados[|data|..],
                dadosCount := |data|,
                checksumRecv := c,
                checksumCalc := Checksum(data),
                messageReady := ok)
  {
    var n: Byte := |data|;
    var h2 := h.(state := WaitData, qtdDados := n, dadosCount := 0, checksumCalc := 0, messageReady := false);
    Header(h, n);
    FrameBody(h2, data, c, e);
    RunAppend(h, [STX, n], data + [c, e]);
    ConcatAssoc([STX, n], data, [c, e]);
    WaitsThen(2, n, 1, if e == ETX && c == Checksum(data) then Success else Error);
  }

  /** A frame built by `protocol_create_message` is accepted: fed to a receiver
      waiting for STX it yields `Success` on its last byte and nothing before,
      and leaves the payload in `dados[0..qtd)`, the length in `qtd_dados` and
      `message_ready` set. */
  lemma CreateThenReceive(h: Handler<State>, data: seq<Byte>, qtd: Byte, bufferSize: Byte)
    requires h.state == WaitStx && qtd <= |data|
    requires Codec.Create(data, qtd, bufferSize).status == Success
    ensures var w := Codec.Create(data, qtd, bufferSize).written;
      var r := Run(h, w);
      r.1 == Waits(|w| - 1) + [Success] &&
      r.0.state == WaitStx && r.0.messageReady &&
      r.0.qtdDados == qtd && r.0.dados[..qtd] == data[..qtd]
  {
    var d := data[..qtd];
    ReceiveFrame(h, d, Checksum(d), ETX);
    assert (d + h.dados[qtd..])[..qtd] == d;
  }

  /** The builder as written (with the 8-bit `msg_size`) produces the same
      bytes whenever it succeeds, including payloads of 251 bytes or more, and
      the receiver accepts every such frame. */
  lemma CreateAsWrittenThenReceive(h: Handler<State>, data: seq<Byte>, qtd: Byte, bufferSize: Byte)
    requires h.state == WaitStx && qtd <= |data|
    requires Codec.CreateAsWritten(data, qtd, bufferSize).status == Success
    ensures var w := Codec.CreateAsWritten(data, qtd, bufferSize).written;
      var r := Run(h, w);
      r.1 == Waits(|w| - 1) + [Success] &&
      r.0.state == WaitStx && r.0.messageReady &&
      r.0.qtdDados == qtd && r.0.dados[..qtd] == data[..qtd]
  {
    var d := data[..qtd];
    ReceiveFrame(h, d, Checksum(d), ETX);
    assert (d + h.dados[qtd..])[..qtd] == d;
  }

  /** A payload byte altered in transit, with the checksum and end byte of the
      original frame, is always rejected with `Error`. */
  lemma CorruptedByteRejected(h: Handler<State>, data: seq<Byte>, i: nat, x: Byte)
    requires h.state == WaitStx && 1 <= |data| <= 255
    requires i < |data| && x != data[i]
    ensures var r := Run(h, [STX, |data|] + data[i := x] + [Checksum(data), ETX]);
      r.1 == Waits(|data| + 3) + [Error] && r.0.state == WaitStx && !r.0.messageReady
  {
    ChecksumDetectsSingleByteChange(data, i, x);
    ReceiveFrame(h, data[i := x], Checksum(data), ETX);
  }

  /** Two frames sent back to back are both accepted, and the second
      payload overwrites the first at the front of the buffer. */
  lemma BackToBackBothAccepted(h: Handler<State>, first: seq<Byte>, second: seq<Byte>)
    requires h.state == WaitStx
    requires 1 <= |first| <= 255 && 1 <= |second| <= 255
    ensures var r := Run(h, Frame(first) + Frame(second));
      r.1 == Waits(|first| + 3) + [Success] + (Waits(|second| + 3) + [Success]) &&
      r.0.state == WaitStx && r.0.messageReady &&
      r.0.qtdDados == |second| && r.0.dados[..|second|] == second
  {
    ReceiveFrame(h, first, Checksum(first), ETX);
    var r1 := Run(h, Frame(first));
    ReceiveFrame(r1.0, second, Checksum(second), ETX);
    var r2 := Run(r1.0, Frame(second));
    RunAppend(h, Frame(first), Frame(second));
    assert (second + r1.0.dados[|second|..])[..|second|] == second;
  }

  /** After an accepted frame the ready flag and the payload survive any bytes
      other than STX; the next STX clears the flag. */
  lemma ReadyHeldUntilStx(h: Handler<State>, data: seq<Byte>, noise: seq<Byte>)
    requires h.state == WaitStx && 1 <= |data| <= 255
    requires forall i :: 0 <= i < |noise| ==> noise[i] != STX
    ensures var r := Run(h, Frame(data) + noise);
      r.0.messageReady && r.0.qtdDados == |data| && r.0.dados[..|data|] == data
    ensures !Run(h, Frame(data) + noise + [STX]).0.messageReady
  {
    ReceiveFrame(h, data, Checksum(data), ETX);
    var r1 := Run(h, Frame(data));
    assert (data + h.dados[|data|..])[..|data|] == data;
    GarbageIgnored(r1.0, noise);
    RunAppend(h, Frame(data), noise);
    RunOne(r1.0, STX);
    RunAppend(h, Frame(data) + noise, [STX]);
  }

  /** The source's garbage scenario: 0xFF and 0x00 leave the machine in
      `WaitStx`, and the STX after them moves it to `WaitQtd`. */
  lemma GarbageThenStxExample(h: Handler<State>)
    requires h.state == WaitStx
    ensures Run(h, [0xFF, 0x00]).0.state == WaitStx
    ensures Run(h, [0xFF, 0x00, STX]).0.state == WaitQtd
  {
    GarbageIgnored(h, [0xFF, 0x00]);
    RunOne(h, STX);
    RunAppend(h, [0xFF, 0x00], [STX]);
    assert [0xFF, 0x00] + [STX] == [0xFF, 0x00, STX];
  }

  /** The valid-message scenario of the source's tests: STX, length 1, byte
      0x42, checksum 0x42, ETX, fed to a receiver waiting for STX. */
  lemma ValidMessageExample(h: Handler<State>)
    requires h.state == WaitStx
    ensures var r := Run(h, [STX, 1, 0x42, 0x42, ETX]);
      r.1[4] == Success && r.0.messageReady && r.0.qtdDados == 1 && r.0.dados[0] == 0x42
  {
    var data: seq<Byte> := [0x42];
    assert Checksum(data) == 0x42 by {
      ChecksumSnoc([], 0x42);
    }
    assert [STX, 1] + data + [0x42, ETX] == [STX, 1, 0x42, 0x42, ETX];
    ReceiveFrame(h, data, 0x42, ETX);
  }

  /** The same frame with the wrong checksum byte 0x99 ends in `Error` and
      leaves no message ready. */
  lemma WrongChecksumExample(h: Handler<State>)
    requires h.state == WaitStx
    ensures var r := Run(h, [STX, 1, 0x42, 0x99, ETX]);
      r.1[4] == Error && !r.0.messageReady
  {
    var data: seq<Byte> := [0x42];
    assert Checksum(data) == 0x42 by {
      ChecksumSnoc([], 0x42);
    }
    assert [STX, 1] + data + [0x99, ETX] == [STX, 1, 0x42, 0x99, ETX];
    ReceiveFrame(h, data, 0x99, ETX);
  }

  /** The source's two-message scenario: both frames succeed and the second
      payload byte 0x20 is what the buffer holds at the end. */
  lemma TwoMessagesExample(h: Handler<State>)
    requires h.state == WaitStx
    ensures var r := Run(h, [STX, 1, 0x10, 0x10, ETX, STX, 1, 0x20, 0x20, ETX]);
      r.1[4] == Success && r.1[9] == Success && r.0.messageReady && r.0.dados[0] == 0x20
  {
    assert Frame([0x10]) == [STX, 1, 0x10, 0x10, ETX] by {
      ChecksumSnoc([], 0x10);
    }
    assert Frame([0x20]) == [STX, 1, 0x20, 0x20, ETX] by {
      ChecksumSnoc([], 0x20);
    }
    BackToBackBothAccepted(h, [0x10], [0x20]);
    assert Frame([0x10]) + Frame([0x20]) == [STX, 1, 0x10, 0x10, ETX, STX, 1, 0x20, 0x20, ETX];
  }

  /** A `ProtocolHandler` record updated in place; `estadoAtual` stands for
      the function pointer `estado_atual`. */
  class ProtocolHandler {
    var estadoAtual: State
    var qtdDados: Byte
    var dados: array<Byte>
    var dadosCount: Byte
    var checksumRecv: Byte
    var checksumCalc: Byte
    var messageReady: bool

    /** The fields as a value. */
    ghost function Regs(): Handler<State>
      reads this, dados
      requires dados.Length == MaxDataSize
    {
      Handler(estadoAtual, qtdDados, dados[..], dadosCount, checksumRecv, checksumCalc, messageReady)
    }

    ghost predicate Valid()
      reads this, dados
    {
      dados.Length == MaxDataSize && Inv(Regs())
    }

    /** A handler with its own buffer, initialised by `protocol_init`. */
    constructor ()
      ensures Valid() && fresh(dados) && Regs() == Initial()
    {
      dados := new Byte[MaxDataSize];
      new;
      Init();
    }

    /** `protocol_init`: every register and every byte of `dados` cleared,
        the state pointer on `espera_stx`. */
    method Init()
      requires dados.Length == MaxDataSize
      modifies this, dados
      ensures dados == old(dados) && Valid() && Regs() == Initial()
    {
      estadoAtual := WaitStx;
      qtdDados := 0;
      dadosCount := 0;
      checksumRecv := 0;
      checksumCalc := 0;
      messageReady := false;
      forall i | 0 <= i < dados.Length {
        dados[i] := 0;
      }
      assert dados[..] == seq(MaxDataSize, _ => 0);
    }

    /** `espera_stx`. */
    method EsperaStx(b: Byte) returns (status: Status)
      requires dados.Length == MaxDataSize
      modifies this
      ensures dados == old(dados) && (Regs(), status) == StepStx(old(Regs()), b)
    {
      if b == STX {
        estadoAtual := WaitQtd;
        dadosCount := 0;
        checksumCalc := 0;
        messageReady := false;
      }
      return Waiting;
    }

    /** `espera_qtd`. */
    method EsperaQtd(b: Byte) returns (status: Status)
      requires dados.Length == MaxDataSize
      modifies this
      ensures dados == old(dados) && (Regs(), status) == StepQtd(old(Regs()), b)
    {
      if b > 0 {
        qtdDados := b;
        estadoAtual := WaitData;
      } else {
        estadoAtual := WaitStx;
      }
      return Waiting;
    }

    /** `espera_dados`. */
    method EsperaDados(b: Byte) returns (status: Status)
      requires dados.Length == MaxDataSize
      modifies this, dados
      ensures dados == old(dados) && (Regs(), status) == StepDados(old(Regs()), b)
    {
      ghost var c := dadosCount;
      dados[dadosCount] := b;
      assert dados[..] == old(dados[..])[c := b];
      checksumCalc := (checksumCalc + b) % 256;
      dadosCount := (dadosCount + 1) % 256;
      if dadosCount >= qtdDados {
        estadoAtual := WaitChecksum;
      }
      return Waiting;
    }

    /** `espera_checksum`. */
    method EsperaChecksum(b: Byte) returns (status: Status)
      requires dados.Length == MaxDataSize
      modifies this
      ensures dados == old(dados) && (Regs(), status) == StepChecksum(old(Regs()), b)
    {
      checksumRecv := b;
      estadoAtual := WaitEtx;
      return Waiting;
    }

    /** `espera_etx`. */
    method EsperaEtx(b: Byte) returns (status: Status)
      requires dados.Length == MaxDataSize
      modifies this
      ensures dados == old(dados) && (Regs(), status) == StepEtx(old(Regs()), b)
    {
      if b == ETX {
        if checksumCalc == checksumRecv {
          messageReady := true;
          estadoAtual := WaitStx;
          return Success;
        }
      }
      estadoAtual := WaitStx;
      return Error;
    }

    /** `protocol_process_byte`: the state function is called through the
        pointer; the registers move as `Next` says and a valid handler stays
        valid. */
    method ProcessByte(b: Byte) returns (status: Status)
      requires dados.Length == MaxDataSize
      modifies this, dados
      ensures dados == old(dados)
      ensures (Regs(), status) == Next(old(Regs()), b)
      ensures old(Valid()) ==> Valid()
    {
      ghost var h := Regs();
      ghost var wasValid := Valid();
      match estadoAtual {
        case WaitStx => status := EsperaStx(b);
        case WaitQtd => status := EsperaQtd(b);
        case WaitData => status := EsperaDados(b);
        case WaitChecksum => status := EsperaChecksum(b);
        case WaitEtx => status := EsperaEtx(b);
      }
      if wasValid {
        ValidAfterNext(h, b);
      }
    }

    /** A valid handler stays valid through a call of `Next`. */
    lemma ValidAfterNext(h: Handler<State>, b: Byte)
      requires Inv(h) && dados.Length == MaxDataSize && Regs() == Next(h, b).0
      ensures Valid()
    {
      NextPreservesInv(h, b);
    }

    /** `protocol_message_ready`: on a valid handler a set flag means the
        machine waits for STX and the payload in the buffer passed its
        checksum. */
    method MessageReady() returns (ready: bool)
      ensures ready == messageReady
      ensures Valid() && ready ==> estadoAtual == WaitStx
      ensures Valid() && ready ==> 0 < qtdDados && Checksum(dados[..qtdDados]) == checksumRecv
    {
      ready := messageReady;
    }

    /** `protocol_get_data_count`: the length announced by the last frame;
        when a message is ready, `dados[0..count)` is its payload and its
        checksum is the one received. */
    method GetDataCount() returns (count: Byte)
      ensures count == qtdDados
      ensures Valid() && messageReady ==> 0 < count && Checksum(dados[..count]) == checksumRecv
    {
      count := qtdDados;
    }
  }
}
