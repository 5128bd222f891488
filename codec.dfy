/** The sender's side of the protocol: the checksum loop and the frame builder
    (`protocol_calculate_checksum`, `protocol_create_message`). Both source
    files carry the same code for these two functions. */
module Codec {
  import opened Protocol

  /** `protocol_calculate_checksum`: an 8-bit accumulator summed over
      `dados[0..qtd)`; with `qtd == 0` it returns 0 at once. */
  method CalculateChecksum(dados: array<Byte>, qtd: Byte) returns (checksum: Byte)
    requires qtd <= dados.Length
    ensures checksum == Checksum(dados[..qtd])
  {
    if qtd == 0 {
      return 0;
    }
    checksum := 0;
    var i: Byte := 0;
    while i < qtd
      invariant i <= qtd
      invariant checksum == Checksum(dados[..i])
    {
      assert dados[..i + 1] == dados[..i] + [dados[i]];
      ChecksumSnoc(dados[..i], dados[i]);
      checksum := (checksum + dados[i]) % 256;
      i := i + 1;
    }
    assert dados[..qtd] == dados[..i];
  }

  /** What one call of the frame builder does: the status it returns, the
      value it leaves in `*buffer_size`, and the bytes it writes from
      `buffer[0]` on. */
  datatype Created = Created(status: Status, size: Byte, written: seq<Byte>)

  /** `protocol_create_message` as written: `msg_size` is a `uint8_t`, so
      `5 + qtd` wraps modulo 256 before it is compared with the buffer size. */
  function CreateAsWritten(data: seq<Byte>, qtd: Byte, bufferSize: Byte): (r: Created)
    requires qtd <= |data|
    ensures r.status == InvalidParam <==> qtd == 0
    ensures r.status == Error <==> 0 < qtd && bufferSize < (5 + qtd) % 256
    ensures r.status == Success <==> 0 < qtd && (5 + qtd) % 256 <= bufferSize
    ensures r.status == Success ==> 0 < qtd && r.written == Frame(data[..qtd])
    ensures r.status == Success ==> r.size == (|r.written| + 1) % 256
    ensures r.status != Success ==> r.written == [] && r.size == bufferSize
  {
    var msgSize := (5 + qtd) % 256;
    if qtd == 0 then Created(InvalidParam, bufferSize, [])
    else if bufferSize < msgSize then Created(Error, bufferSize, [])
    else Created(Success, msgSize, Frame(data[..qtd]))
  }

  /** With a wrapped `msg_size` the guard lets through buffers too small for
      the frame: for every `qtd` of 251 or more there are buffer sizes that
      the call accepts and then overruns. */
  lemma AsWrittenOverrunsBuffer(data: seq<Byte>, qtd: Byte, bufferSize: Byte)
    requires 251 <= qtd <= |data|
    requires qtd - 251 <= bufferSize < qtd + 4
    ensures CreateAsWritten(data, qtd, bufferSize).status == Success
    ensures |CreateAsWritten(data, qtd, bufferSize).written| > bufferSize
  {
  }

  /** The concrete case: 255 payload bytes and a 4-byte buffer; `msg_size`
      is `(5 + 255) % 256 == 4`, the call succeeds and writes 259 bytes. */
  lemma AsWrittenOverrunExample()
    ensures var r := CreateAsWritten(seq(255, _ => 0), 255, 4);
            r.status == Success && r.size == 4 && |r.written| == 259
  {
    AsWrittenOverrunsBuffer(seq(255, _ => 0), 255, 4);
  }

  /** The frame builder with the size guard computed without wrap-around:
      a frame is built only when it fits, together with the one extra byte
      that the reported size counts, into the caller's buffer. */
  function Create(data: seq<Byte>, qtd: Byte, bufferSize: Byte): (r: Created)
    requires qtd <= |data|
    ensures r.status == InvalidParam <==> qtd == 0
    ensures r.status == Error <==> 0 < qtd && bufferSize < 5 + qtd
    ensures r.status == Success <==> 0 < qtd && |Frame(data[..qtd])| < bufferSize
    ensures r.status == Success ==> 0 < qtd && r.written == Frame(data[..qtd])
    ensures r.status == Success ==> r.size == |r.written| + 1
    ensures r.status != Success ==> r.written == [] && r.size == bufferSize
  {
    var msgSize := 5 + qtd;
    if qtd == 0 then Created(InvalidParam, bufferSize, [])
    else if bufferSize < msgSize then Created(Error, bufferSize, [])
    else Created(Success, msgSize, Frame(data[..qtd]))
  }

  /** The corrected builder behaves exactly as the source wherever `5 + qtd`
      does not wrap, and refuses every larger payload with `Error`. */
  lemma CreateAgreesWithSource(data: seq<Byte>, qtd: Byte, bufferSize: Byte)
    requires qtd <= |data|
    ensures qtd <= 250 ==> Create(data, qtd, bufferSize) == CreateAsWritten(data, qtd, bufferSize)
    ensures qtd > 250 ==> Create(data, qtd, bufferSize).status == Error
  {
  }

  /** `protocol_create_message`: on success `buffer[0..4+qtd)` holds the frame
      and `size` (the new `*buffer_size`) is `5 + qtd`; on `InvalidParam` or
      `Error` nothing is written and the size is left as it was. */
  method CreateMessage(dados: array<Byte>, qtd: Byte, buffer: array<Byte>, bufferSize: Byte)
    returns (status: Status, size: Byte)
    requires qtd <= dados.Length && bufferSize <= buffer.Length
    requires dados != buffer
    modifies buffer
    ensures var r := Create(dados[..], qtd, bufferSize);
            status == r.status && size == r.size &&
            buffer[..|r.written|] == r.written &&
            buffer[|r.written|..] == old(buffer[|r.written|..])
  {
    if qtd == 0 {
      return InvalidParam, bufferSize;
    }
    var checksum := CalculateChecksum(dados, qtd);
    ghost var payload := dados[..qtd];
    var msgSize := 5 + qtd;
    if bufferSize < msgSize {
      return Error, bufferSize;
    }
    buffer[0] := STX;
    buffer[1] := qtd;
    forall i | 0 <= i < qtd {
      buffer[2 + i] := dados[i];
    }
    buffer[2 + qtd] := checksum;
    buffer[3 + qtd] := ETX;
    assert buffer[2..2 + qtd] == dados[..qtd];
    assert buffer[..qtd + 4] == [STX, qtd] + buffer[2..2 + qtd] + [checksum, ETX];
    assert dados[..qtd] == payload;
    assert dados[..][..qtd] == dados[..qtd];
    return Success, msgSize;
  }

  /** The checksum of `{0x10, 0x20, 0x30}` is `0x60`. */
  lemma ChecksumExample()
    ensures Checksum([0x10, 0x20, 0x30]) == 0x60
  {
    ChecksumSnoc([0x10, 0x20], 0x30);
    ChecksumSnoc([0x10], 0x20);
    ChecksumSnoc([], 0x10);
  }

  /** Framing `{0xAA, 0xBB, 0xCC}` into a 10-byte buffer succeeds, reports
      size 8 and writes STX, 3, the data, the checksum 0x31 and ETX. */
  lemma CreateExample()
    ensures var r := Create([0xAA, 0xBB, 0xCC], 3, 10);
            r.status == Success && r.size == 8 &&
            r.written == [STX, 3, 0xAA, 0xBB, 0xCC, 0x31, ETX]
  {
    var d: seq<Byte> := [0xAA, 0xBB, 0xCC];
    assert d[..3] == d;
    assert Checksum(d) == 0x31 by {
      ChecksumSnoc([0xAA, 0xBB], 0xCC);
      ChecksumSnoc([0xAA], 0xBB);
      ChecksumSnoc([], 0xAA);
    }
    assert Create(d, 3, 10) == Created(Success, 8, Frame(d));
    assert Frame(d) == [STX, 3, 0xAA, 0xBB, 0xCC, 0x31, ETX];
  }
}
