/** Vocabulary shared by the frame builder and both receivers: bytes, the two
    sentinels, the return codes, the receiver's registers and the 8-bit
    additive checksum that protects a frame. */
module Protocol {

  /** A C `uint8_t`. Arithmetic the source does in 8 bits is written out
      with an explicit `% 256`. */
  type Byte = x: int | 0 <= x < 256

  /** Start-of-frame sentinel (`STX_BYTE`). */
  const STX: Byte := 0x02
  /** End-of-frame sentinel (`ETX_BYTE`). */
  const ETX: Byte := 0x03
  /** Capacity of the receive buffer `dados` (`MAX_DATA_SIZE`). */
  const MaxDataSize: nat := 256

  /** Return codes of the protocol functions. */
  datatype Status = Success | Error | Waiting | InvalidParam {
    /** The integer the C functions return for this status. */
    function Code(): int {
      match this
      case Success => 0
      case Error => -1
      case Waiting => -2
      case InvalidParam => -3
    }
  }

  /** The contents of the fixed receive buffer `dados[MAX_DATA_SIZE]`. */
  type Buffer = s: seq<Byte> | |s| == MaxDataSize witness seq(MaxDataSize, _ => 0)

  /** The registers of a `ProtocolHandler` as values, with the encoding of the
      current state `S` left to each receiver variant. */
  datatype Handler<S> = Handler(
    state: S,
    qtdDados: Byte,
    dados: Buffer,
    dadosCount: Byte,
    checksumRecv: Byte,
    checksumCalc: Byte,
    messageReady: bool)

  /** The statuses returned while a frame is still incomplete. */
  function Waits(n: nat): (r: seq<Status>)
    ensures |r| == n
  {
    if n == 0 then [] else [Waiting] + Waits(n - 1)
  }

  lemma {:induction false} WaitsAppend(m: nat, n: nat)
    ensures Waits(m) + Waits(n) == Waits(m + n)
  {
    if m > 0 {
      WaitsAppend(m - 1, n);
      assert [Waiting] + Waits(m - 1) + Waits(n) == [Waiting] + (Waits(m - 1) + Waits(n));
    }
  }

  lemma WaitsThen(a: nat, b: nat, c: nat, o: Status)
    ensures Waits(a) + (Waits(b) + (Waits(c) + [o])) == Waits(a + b + c) + [o]
  {
    WaitsAppend(a, b);
    WaitsAppend(a + b, c);
  }

  lemma ConcatAssoc<T>(a: seq<T>, b: seq<T>, c: seq<T>)
    ensures a + b + c == a + (b + c)
  {
  }

  /** Storing byte `b` at index `i` extends the checksum of the prefix before it. */
  lemma ChecksumAt(s: seq<Byte>, i: nat, b: Byte)
    requires i < |s|
    ensures Checksum(s[i := b][..i + 1]) == Checksum(s[..i] + [b]) == (Checksum(s[..i]) + b) % 256
  {
    assert s[i := b][..i + 1] == s[..i] + [b];
    ChecksumSnoc(s[..i], b);
  }

  /** Overwriting `s[i]` leaves the bytes before and from `j > i` as they were. */
  lemma StoreAt(s: seq<Byte>, i: nat, b: Byte, j: nat)
    requires i < j <= |s|
    ensures s[i := b][..i + 1] == s[..i] + [b]
    ensures s[i := b][j..] == s[j..]
  {
  }

  /** The integer sum of the bytes, without wrap-around. */
  function Sum(s: seq<Byte>): int
  {
    if s == [] then 0 else Sum(s[..|s| - 1]) + s[|s| - 1]
  }

  /** The checksum as the source accumulates it: an 8-bit register to which
      each byte is added in turn, wrapping modulo 256. */
  function Checksum(s: seq<Byte>): Byte
  {
    if s == [] then 0 else (Checksum(s[..|s| - 1]) + s[|s| - 1]) % 256
  }

  /** Adding one more byte to the running checksum. */
  lemma ChecksumSnoc(s: seq<Byte>, b: Byte)
    ensures Checksum(s + [b]) == (Checksum(s) + b) % 256
  {
    assert (s + [b])[..|s|] == s;
  }

  /** The 8-bit accumulator holds the true sum of the bytes reduced modulo 256. */
  lemma {:induction false} ChecksumIsSumMod(s: seq<Byte>)
    ensures Checksum(s) == Sum(s) % 256
    decreases |s|
  {
    if s != [] {
      var p := s[..|s| - 1];
      ChecksumIsSumMod(p);
      ModAdd(Sum(p), s[|s| - 1]);
    }
  }

  lemma ModAdd(a: int, b: int)
    ensures (a % 256 + b) % 256 == (a + b) % 256
  {
    var q := a / 256;
    assert a == 256 * q + a % 256;
    assert a + b == 256 * q + (a % 256 + b);
  }

  /** Replacing one byte changes the sum by exactly the difference. */
  lemma {:induction false} SumUpdate(s: seq<Byte>, i: nat, x: Byte)
    requires i < |s|
    ensures Sum(s[i := x]) == Sum(s) - s[i] + x
    decreases |s|
  {
    var n := |s| - 1;
    var t := s[i := x];
    if i == n {
      assert t[..n] == s[..n];
    } else {
      assert t[..n] == s[..n][i := x];
      SumUpdate(s[..n], i, x);
    }
  }

  /** The additive checksum catches every corruption of a single byte: two
      different bytes differ by less than 256, so their difference never
      vanishes modulo 256. */
  lemma ChecksumDetectsSingleByteChange(s: seq<Byte>, i: nat, x: Byte)
    requires i < |s| && x != s[i]
    ensures Checksum(s[i := x]) != Checksum(s)
  {
    ChecksumIsSumMod(s);
    ChecksumIsSumMod(s[i := x]);
    SumUpdate(s, i, x);
    ModShift(Sum(s), x - s[i]);
  }

  /** Adding a non-zero amount smaller than 256 in magnitude always changes
      a value modulo 256. */
  lemma ModShift(a: int, d: int)
    requires -256 < d < 256 && d != 0
    ensures (a + d) % 256 != a % 256
  {
    var q, r := a / 256, a % 256;
    var q2, r2 := (a + d) / 256, (a + d) % 256;
    assert a == 256 * q + r && a + d == 256 * q2 + r2;
    assert d == 256 * (q2 - q) + (r2 - r);
  }

  /** The wire layout `STX | QTD | DATA[QTD] | CHK | ETX` of a payload: four
      bytes of framing around the payload, the length byte equal to the
      payload's length and the checksum byte equal to its checksum. */
  function Frame(data: seq<Byte>): (f: seq<Byte>)
    requires 1 <= |data| <= 255
    ensures |f| == |data| + 4
    ensures f[0] == STX && f[1] == |data| && f[2..|data| + 2] == data
    ensures f[|data| + 2] == Checksum(data) && f[|data| + 3] == ETX
  {
    [STX, |data|] + data + [Checksum(data), ETX]
  }
}
