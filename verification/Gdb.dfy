/** Packets of the GDB remote protocol: hexadecimal and binary encodings, framing, and the parser
    (qemu/gdbstub.c). */
module Gdb {
  import opened Common

  // '$' 0x24, '#' 0x23, '*' 0x2a, '}' 0x7d, '+' 0x2b, '-' 0x2d

  /** fromhex. Anything but a digit counts as zero. */
  function FromHex(v: byte): (d: nat)
    ensures d < 16
  {
    if 0x30 <= v <= 0x39 then v - 0x30
    else if 0x41 <= v <= 0x46 then v - 0x41 + 10
    else if 0x61 <= v <= 0x66 then v - 0x61 + 10
    else 0
  }

  /** tohex */
  function ToHex(d: nat): byte
    requires d < 16
  {
    if d < 10 then d + 0x30 else d - 10 + 0x61
  }

  lemma FromToHex(d: nat)
    requires d < 16
    ensures FromHex(ToHex(d)) == d && ToHex(d) != 0x23 && ToHex(d) != 0x24
  {
  }

  /** Digits are written in lower case and read in either; any other character reads as zero. */
  lemma HexDigits(d: nat, v: byte)
    requires d < 16
    ensures ToHex(d) == "0123456789abcdef"[d] as int
    ensures FromHex("0123456789ABCDEF"[d] as int) == FromHex("0123456789abcdef"[d] as int) == d
    ensures FromHex(v) == 0 || 0x30 <= v <= 0x39 || 0x41 <= v <= 0x46 || 0x61 <= v <= 0x66
  {
  }

  function HexOf(mem: seq<byte>): seq<byte> {
    if mem == [] then [] else HexOf(mem[..|mem| - 1]) + [ToHex(mem[|mem| - 1] / 16), ToHex(mem[|mem| - 1] % 16)]
  }

  /** memtohex, with the terminating zero left out of the result. */
  method MemToHex(mem: seq<byte>) returns (buf: seq<byte>)
    ensures buf == HexOf(mem) && |buf| == 2 * |mem|
    ensures forall i :: 0 <= i < |mem| ==> buf[2 * i] == ToHex(mem[i] / 16) && buf[2 * i + 1] == ToHex(mem[i] % 16)
  {
    hide ToHex;
    forall i | 0 <= i < |mem| ensures |HexOf(mem)| == 2 * |mem|
      ensures HexOf(mem)[2 * i] == ToHex(mem[i] / 16) && HexOf(mem)[2 * i + 1] == ToHex(mem[i] % 16)
    {
      HexAt(mem, i);
    }
    buf := [];
    var i: nat := 0;
    while i < |mem|
      invariant i <= |mem| && buf == HexOf(mem[..i])
    {
      var c := mem[i];
      assert mem[..i + 1][..i] == mem[..i];
      buf := buf + [ToHex(c / 16)];
      buf := buf + [ToHex(c % 16)];
      assert buf == HexOf(mem[..i]) + [ToHex(c / 16), ToHex(c % 16)];
      i := i + 1;
    }
    assert mem[..i] == mem;
  }

  /** hextomem */
  method HexToMem(buf: seq<byte>, len: nat) returns (mem: seq<byte>)
    requires |buf| >= 2 * len
    ensures |mem| == len && forall i :: 0 <= i < len ==> mem[i] == FromHex(buf[2 * i]) * 16 + FromHex(buf[2 * i + 1])
  {
    mem := [];
    var i: nat := 0;
    while i < len
      invariant i <= len && |mem| == i && forall j :: 0 <= j < i ==>
                  mem[j] == FromHex(buf[2 * j]) * 16 + FromHex(buf[2 * j + 1])
    {
      mem := mem + [FromHex(buf[2 * i]) * 16 + FromHex(buf[2 * i + 1])];
      i := i + 1;
    }
  }

  lemma {:induction false} HexAt(mem: seq<byte>, i: nat)
    requires i < |mem|
    ensures |HexOf(mem)| == 2 * |mem| && HexOf(mem)[2 * i] == ToHex(mem[i] / 16)
    ensures HexOf(mem)[2 * i + 1] == ToHex(mem[i] % 16)
  {
    if |mem| > 1 {
      HexAt(mem[..|mem| - 1], if i < |mem| - 1 then i else 0);
    }
  }

  /** Hexadecimal dumps read back. */
  method HexRoundTrip(mem: seq<byte>) returns (r: seq<byte>)
    ensures r == mem
  {
    var buf := MemToHex(mem);
    if mem != [] {
      HexAt(mem, 0);
    }
    r := HexToMem(buf, |mem|);
    forall i | 0 <= i < |mem| ensures r[i] == mem[i] {
      HexAt(mem, i);
      FromToHex(mem[i] / 16);
      FromToHex(mem[i] % 16);
    }
  }

  // The encoding of binary data.

  predicate Special(c: byte) {
    c == 0x23 || c == 0x24 || c == 0x2a || c == 0x7d
  }

  /** c ^ 0x20 */
  function Flip(c: byte): byte {
    if (c / 32) % 2 == 1 then c - 32 else c + 32
  }

  function EscapeByte(c: byte): seq<byte> {
    if Special(c) then [0x7d, Flip(c)] else [c]
  }

  function Escape(mem: seq<byte>): seq<byte> {
    if mem == [] then [] else EscapeByte(mem[0]) + Escape(mem[1..])
  }

  /** What the receiver makes of it: the byte after '}' with one bit flipped, any other byte as it is. */
  function Unescape(s: seq<byte>): seq<byte> {
    if s == [] then []
    else if s[0] == 0x7d && |s| > 1 then [Flip(s[1])] + Unescape(s[2..])
    else [s[0]] + Unescape(s[1..])
  }

  /** memtox */
  method MemToX(mem: seq<byte>) returns (buf: seq<byte>)
    ensures buf == Escape(mem)
  {
    hide Escape;
    buf := [];
    var i: nat := 0;
    EscapeNone();
    while i < |mem|
      invariant i <= |mem| && buf == Escape(mem[..i])
    {
      var c := mem[i];
      EscapeSnoc(mem[..i], c);
      assert mem[..i] + [c] == mem[..i + 1];
      if Special(c) {
        buf := buf + [0x7d, Flip(c)];
      } else {
        buf := buf + [c];
      }
      i := i + 1;
    }
    assert mem[..i] == mem;
  }

  lemma EscapeNone()
    ensures Escape([]) == []
  {
  }

  lemma {:induction false} EscapeSnoc(mem: seq<byte>, c: byte)
    ensures Escape(mem + [c]) == Escape(mem) + EscapeByte(c)
  {
    hide EscapeByte;
    if mem == [] {
      assert [] + [c] == [c];
      assert [c][1..] == [];
    } else {
      EscapeSnoc(mem[1..], c);
      assert (mem + [c])[1..] == mem[1..] + [c];
    }
  }

  lemma {:induction false} EscapeClean(mem: seq<byte>)
    ensures 0x23 !in Escape(mem) && 0x24 !in Escape(mem) && 0x2a !in Escape(mem)
  {
    if mem != [] {
      EscapeClean(mem[1..]);
      assert 0x23 !in EscapeByte(mem[0]) && 0x24 !in EscapeByte(mem[0]) && 0x2a !in EscapeByte(mem[0]);
    }
  }

  lemma {:induction false} UnescapeEscape(mem: seq<byte>)
    ensures Unescape(Escape(mem)) == mem
  {
    if mem != [] {
      UnescapeEscape(mem[1..]);
      var s, rest := Escape(mem), Escape(mem[1..]);
      if Special(mem[0]) {
        assert s[2..] == rest && Flip(Flip(mem[0])) == mem[0];
      } else {
        assert s[1..] == rest;
      }
    }
  }

  /** The special bytes, and what follows '}' for each. */
  lemma EscapedBytes()
    ensures EscapeByte(0x23) == [0x7d, 0x03] && EscapeByte(0x24) == [0x7d, 0x04]
    ensures EscapeByte(0x2a) == [0x7d, 0x0a] && EscapeByte(0x7d) == [0x7d, 0x5d]
  {
  }

  /** Data without the four special bytes is sent as it is. */
  lemma {:induction false} EscapePlain(mem: seq<byte>)
    requires forall c :: c in mem ==> c != 0x23 && c != 0x24 && c != 0x2a && c != 0x7d
    ensures Escape(mem) == mem
  {
    if mem != [] {
      assert forall c :: c in mem[1..] ==> c in mem;
      EscapePlain(mem[1..]);
      assert mem[0] in mem;
      assert mem == [mem[0]] + mem[1..];
    }
  }

  // Framing.

  /** The value of a byte as a signed char. */
  function Signed(c: byte): int {
    if c < 128 then c else c - 256
  }

  function Sum(s: seq<byte>): int {
    if s == [] then 0 else Sum(s[..|s| - 1]) + Signed(s[|s| - 1])
  }

  function Checksum(s: seq<byte>): byte {
    Sum(s) % 256
  }

  /** The sum of the bytes as the protocol has it, without signs. */
  function ByteSum(s: seq<byte>): nat {
    if s == [] then 0 else ByteSum(s[..|s| - 1]) + s[|s| - 1]
  }

  /** The checksum is the sum of the bytes modulo 256, although char is signed. */
  lemma ChecksumIsStandard(s: seq<byte>)
    ensures Checksum(s) == ByteSum(s) % 256
  {
    var k := SumWraps(s);
    hide Sum, ByteSum;
    Wraps(Sum(s), k);
  }

  lemma Wraps(x: int, k: nat)
    ensures (x + 256 * k) % 256 == x % 256
  {
  }

  lemma {:induction false} SumWraps(s: seq<byte>) returns (k: nat)
    ensures ByteSum(s) == Sum(s) + 256 * k
  {
    if s == [] {
      k := 0;
    } else {
      k := SumWraps(s[..|s| - 1]);
      if s[|s| - 1] >= 128 {
        k := k + 1;
      }
    }
  }

  /** A frame is '$', the payload, '#' and two digits that read as the sum of the payload modulo 256. */
  lemma FrameMeans(payload: seq<byte>)
    ensures var f, n := Frame(payload), |payload|;
            && |f| == n + 4 && f[0] == 0x24 && f[1..n + 1] == payload && f[n + 1] == 0x23
            && FromHex(f[n + 2]) * 16 + FromHex(f[n + 3]) == ByteSum(payload) % 256
  {
    ChecksumIsStandard(payload);
    FromToHex(Checksum(payload) / 16);
    FromToHex(Checksum(payload) % 16);
    hide Checksum, ByteSum;
  }

  function Frame(payload: seq<byte>): seq<byte> {
    [0x24] + payload + [0x23, ToHex(Checksum(payload) / 16), ToHex(Checksum(payload) % 16)]
  }

  datatype Mode = Idle | GetLine | Checksum1 | Checksum2

  /** What the stub has read and done. `pending` is the packet that waits for an acknowledgement;
      `delivered` are the calls of gdb_handle_packet, which leaves the parser idle. */
  datatype Stub = Stub(mode: Mode, line: seq<byte>, csum: nat, pending: seq<byte>, running: bool, output: seq<byte>,
                       delivered: seq<seq<byte>>)

  /** gdb_read_byte */
  function Read(g: Stub, ch: byte): Stub {
    var g1 :=
      if g.pending == [] then g
      else
        var g0 := if ch == 0x2d then g.(output := g.output + g.pending) else g;
        if ch == 0x2b || ch == 0x24 then g0.(pending := []) else g0;
    if g.pending != [] && ch != 0x24 then g1
    else if g1.running then g1.(running := false)
    else Parse(g1, ch)
  }

  function Parse(g: Stub, ch: byte): Stub {
    match g.mode
    case Idle => if ch == 0x24 then g.(mode := GetLine, line := []) else g
    case GetLine =>
      if ch == 0x23 then g.(mode := Checksum1)
      else if |g.line| >= 4095 then g.(mode := Idle)
      else g.(line := g.line + [ch])
    case Checksum1 => g.(mode := Checksum2, csum := FromHex(ch) * 16)
    case Checksum2 =>
      var csum := g.csum + FromHex(ch);
      if csum != Checksum(g.line) then g.(mode := Idle, csum := csum, output := g.output + [0x2d])
      else g.(mode := Idle, csum := csum, output := g.output + [0x2b], delivered := g.delivered + [g.line])
  }

  function Feed(g: Stub, s: seq<byte>): Stub {
    if s == [] then g else Read(Feed(g, s[..|s| - 1]), s[|s| - 1])
  }

  class GdbState {
    var mode: Mode
    const lineBuf: array<byte>
    var lineBufIndex: nat
    var lineCsum: nat
    var lastPacket: seq<byte>
    var running: bool
    var output: seq<byte>
    var delivered: seq<seq<byte>>

    ghost predicate Valid()
      reads this, lineBuf
    {
      lineBuf.Length == 4096 && lineBufIndex <= 4095 && (mode == Checksum2 ==> lineCsum % 16 == 0 && lineCsum < 256)
    }

    ghost function V(): Stub
      reads this, lineBuf
      requires Valid()
    {
      Stub(mode, lineBuf[..lineBufIndex], lineCsum, lastPacket, running, output, delivered)
    }

    constructor ()
      ensures Valid() && V() == Stub(Idle, [], 0, [], false, [], [])
    {
      lineBuf := new byte[4096](i => 0);
      mode, lineBufIndex, lineCsum, lastPacket, running, output, delivered := Idle, 0, 0, [], false, [], [];
    }

    /** gdb_read_byte */
    method ReadByte(ch: byte)
      requires Valid()
      modifies this, lineBuf
      ensures Valid() && V() == Read(old(V()), ch)
    {
      hide Checksum;
      if |lastPacket| != 0 {
        if ch == 0x2d {
          output := output + lastPacket;
        }
        if ch == 0x2b || ch == 0x24 {
          lastPacket := [];
        }
        if ch != 0x24 {
          return;
        }
      }
      if running {
        running := false;
        return;
      }
      match mode {
        case Idle =>
          if ch == 0x24 {
            lineBufIndex := 0;
            mode := GetLine;
          }
        case GetLine =>
          if ch == 0x23 {
            mode := Checksum1;
          } else if lineBufIndex >= 4095 {
            mode := Idle;
          } else {
            lineBuf[lineBufIndex] := ch;
            lineBufIndex := lineBufIndex + 1;
          }
        case Checksum1 =>
          lineBuf[lineBufIndex] := 0;
          lineCsum := FromHex(ch) * 16;
          mode := Checksum2;
        case Checksum2 =>
          lineCsum := lineCsum + FromHex(ch);
          var csum := LineChecksum();
          if lineCsum != csum {
            output := output + [0x2d];
            mode := Idle;
          } else {
            output := output + [0x2b];
            delivered := delivered + [lineBuf[..lineBufIndex]];
            mode := Idle;
          }
      }
    }

    method LineChecksum() returns (csum: byte)
      requires lineBuf.Length == 4096 && lineBufIndex <= 4095
      ensures csum == Checksum(lineBuf[..lineBufIndex])
    {
      var sum: int := 0;
      var i: nat := 0;
      while i < lineBufIndex
        invariant i <= lineBufIndex && sum == Sum(lineBuf[..i])
      {
        assert lineBuf[..i + 1][..i] == lineBuf[..i];
        sum := sum + Signed(lineBuf[i]);
        i := i + 1;
      }
      csum := sum % 256;
    }

    /** put_packet_binary */
    method PutPacketBinary(buf: seq<byte>)
      requires Valid() && |buf| <= 4096
      modifies this
      ensures Valid() && V() == old(V()).(pending := Frame(buf), output := old(output) + Frame(buf))
    {
      var p: seq<byte> := [0x24] + buf;
      var csum: int := 0;
      var i: nat := 0;
      while i < |buf|
        invariant i <= |buf| && csum == Sum(buf[..i]) && V() == old(V())
      {
        assert buf[..i + 1][..i] == buf[..i];
        csum := csum + Signed(buf[i]);
        i := i + 1;
      }
      assert buf[..i] == buf;
      p := p + [0x23, ToHex((csum % 256) / 16), ToHex(csum % 16)];
      Nibbles(csum);
      assert p == Frame(buf);
      lastPacket := p;
      output := output + p;
    }
  }

  lemma Nibbles(csum: int)
    ensures (csum % 256) % 16 == csum % 16
  {
  }

  predicate Listening(g: Stub) {
    g.mode == Idle && g.pending == [] && !g.running
  }

  /** Reading the line of a packet. */
  lemma {:induction false} FeedLine(g: Stub, payload: seq<byte>)
    requires Listening(g) && |payload| <= 4095 && 0x23 !in payload
    ensures Feed(g, [0x24] + payload) == g.(mode := GetLine, line := payload)
    decreases |payload|
  {
    var s := [0x24] + payload;
    if payload == [] {
      assert s[..0] == [] && s[|s| - 1] == 0x24;
      assert Feed(g, s[..|s| - 1]) == g;
    } else {
      var shorter := payload[..|payload| - 1];
      FeedLine(g, shorter);
      assert s[..|s| - 1] == [0x24] + shorter;
      assert shorter + [payload[|payload| - 1]] == payload;
    }
  }

  lemma FeedOne(g: Stub, s: seq<byte>, ch: byte)
    ensures Feed(g, s + [ch]) == Read(Feed(g, s), ch)
  {
    assert (s + [ch])[..|s|] == s;
  }

  /** A packet arrives as it was framed, and is acknowledged. */
  lemma FrameDelivered(g: Stub, payload: seq<byte>)
    requires Listening(g) && |payload| <= 4095 && 0x23 !in payload
    ensures var g' := Feed(g, Frame(payload));
            g'.delivered == g.delivered + [payload] && g'.output == g.output + [0x2b] && Listening(g')
  {
    TrailerRead(g, payload, ToHex(Checksum(payload) / 16), ToHex(Checksum(payload) % 16));
    FromToHex(Checksum(payload) / 16);
    FromToHex(Checksum(payload) % 16);
  }

  /** A line with its two check digits: delivered if they are the checksum, refused otherwise. */
  lemma TrailerRead(g: Stub, payload: seq<byte>, c1: byte, c2: byte)
    requires Listening(g) && |payload| <= 4095 && 0x23 !in payload
    ensures var g', good := Feed(g, [0x24] + payload + [0x23, c1, c2]),
            FromHex(c1) * 16 + FromHex(c2) == Checksum(payload);
            && Listening(g') && g'.delivered == (if good then g.delivered + [payload] else g.delivered)
            && g'.output == g.output + [if good then 0x2b else 0x2d]
  {
    hide Checksum;
    var s := [0x24] + payload;
    FeedLine(g, payload);
    FeedOne(g, s, 0x23);
    FeedOne(g, s + [0x23], c1);
    FeedOne(g, s + [0x23] + [c1], c2);
    assert s + [0x23, c1, c2] == s + [0x23] + [c1] + [c2];
  }

  /** Binary data goes through, whatever its bytes. */
  lemma BinaryDelivered(g: Stub, mem: seq<byte>)
    requires Listening(g) && |Escape(mem)| <= 4095
    ensures var g' := Feed(g, Frame(Escape(mem)));
            |g'.delivered| == |g.delivered| + 1 && Unescape(g'.delivered[|g.delivered|]) == mem
  {
    EscapeClean(mem);
    UnescapeEscape(mem);
    FrameDelivered(g, Escape(mem));
  }

  /** A line that does not fit is dropped: the parser is idle again, and nothing was delivered or answered. */
  lemma {:induction false} TooLong(g: Stub, payload: seq<byte>)
    requires Listening(g) && |payload| > 4095 && 0x23 !in payload && 0x24 !in payload
    ensures Feed(g, [0x24] + payload) == g.(line := payload[..4095])
    decreases |payload|
  {
    var s := [0x24] + payload;
    var shorter := payload[..|payload| - 1];
    assert s[..|s| - 1] == [0x24] + shorter;
    if |payload| == 4096 {
      FeedLine(g, shorter);
    } else {
      TooLong(g, shorter);
      assert shorter[..4095] == payload[..4095];
    }
  }

  /** A packet without '#' and '$' in it is delivered exactly when it fits the buffer. */
  lemma DeliveredIffFits(g: Stub, payload: seq<byte>)
    requires Listening(g) && 0x23 !in payload && 0x24 !in payload
    ensures Feed(g, Frame(payload)).delivered == if |payload| <= 4095 then g.delivered + [payload] else g.delivered
  {
    if |payload| <= 4095 {
      FrameDelivered(g, payload);
    } else {
      hide Checksum;
      var c1, c2 := ToHex(Checksum(payload) / 16), ToHex(Checksum(payload) % 16);
      FromToHex(Checksum(payload) / 16);
      FromToHex(Checksum(payload) % 16);
      var s := [0x24] + payload;
      TooLong(g, payload);
      FeedOne(g, s, 0x23);
      FeedOne(g, s + [0x23], c1);
      FeedOne(g, s + [0x23] + [c1], c2);
      assert s + [0x23, c1, c2] == s + [0x23] + [c1] + [c2];
    }
  }

  // Acknowledgements.

  function Times(n: nat, s: seq<byte>): seq<byte> {
    if n == 0 then [] else Times(n - 1, s) + s
  }

  function Nacks(n: nat): seq<byte> { seq(n, i => 0x2d) }

  /** Each '-' has the pending packet sent once more, and it stays pending. */
  lemma {:induction false} Retransmitted(g: Stub, n: nat)
    requires g.pending != []
    ensures Feed(g, Nacks(n)) == g.(output := g.output + Times(n, g.pending))
  {
    if n == 0 {
      assert g.output + [] == g.output;
    } else {
      Retransmitted(g, n - 1);
      assert Nacks(n)[..n - 1] == Nacks(n - 1);
      assert g.output + Times(n - 1, g.pending) + g.pending == g.output + (Times(n - 1, g.pending) + g.pending);
    }
  }

  /** A packet is sent again as often as it is refused, and no more once it is acknowledged. */
  lemma AckedAfterRetries(g: Stub, n: nat)
    requires g.pending != []
    ensures Feed(g, Nacks(n) + [0x2b]) == g.(output := g.output + Times(n, g.pending), pending := [])
  {
    Retransmitted(g, n);
    FeedOne(g, Nacks(n), 0x2b);
  }

  /** Anything else but the start of a command is ignored while a packet is pending. */
  lemma {:induction false} NoiseIgnored(g: Stub, s: seq<byte>)
    requires g.pending != [] && 0x2b !in s && 0x2d !in s && 0x24 !in s
    ensures Feed(g, s) == g
  {
    if s != [] {
      NoiseIgnored(g, s[..|s| - 1]);
      assert s[|s| - 1] in s;
    }
  }

  lemma {:induction false} FeedThen(g: Stub, s: seq<byte>, t: seq<byte>)
    ensures Feed(g, s + t) == Feed(Feed(g, s), t)
  {
    if t == [] {
      assert s + t == s;
    } else {
      var n := |t| - 1;
      FeedThen(g, s, t[..n]);
      assert (s + t)[..|s + t| - 1] == s + t[..n];
    }
  }

  /** A command that comes instead of an acknowledgement is delivered, and the pending packet given up. */
  lemma CommandAbandonsReply(g: Stub, payload: seq<byte>)
    requires g.mode == Idle && !g.running && g.pending != [] && |payload| <= 4095 && 0x23 !in payload
    ensures var g' := Feed(g, Frame(payload));
            Listening(g') && g'.delivered == g.delivered + [payload] && g'.output == g.output + [0x2b]
  {
    hide Checksum;
    var free := g.(pending := []);
    var f := Frame(payload);
    assert f == [0x24] + f[1..];
    assert Feed(g, []) == g && Feed(free, []) == free;
    assert [] + [0x24] == [0x24];
    FeedOne(g, [], 0x24);
    FeedOne(free, [], 0x24);
    FeedThen(g, [0x24], f[1..]);
    FeedThen(free, [0x24], f[1..]);
    FrameDelivered(free, payload);
  }

  /** While the machine runs, a byte stops it and is lost; what follows is read. */
  lemma ByteStops(g: Stub, ch: byte, payload: seq<byte>)
    requires g.mode == Idle && g.running && g.pending == [] && |payload| <= 4095 && 0x23 !in payload
    ensures Feed(g, [ch]) == g.(running := false)
    ensures Feed(g, [ch] + Frame(payload)).delivered == g.delivered + [payload]
  {
    hide Checksum;
    assert [] + [ch] == [ch];
    assert Feed(g, []) == g;
    FeedOne(g, [], ch);
    FeedThen(g, [ch], Frame(payload));
    FrameDelivered(g.(running := false), payload);
  }
}
