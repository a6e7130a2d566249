/** Bit-serial reads of the EEPROM: the register writes of the driver against a model of the device behind them. */
module Eeprom {
  import opened BitArithmetic

  /** The bits of register 9346CR; `dout` is driven by the device. */
  datatype Reg = Reg(em0: bool, em1: bool, cs: bool, sk: bool, di: bool, dout: bool)

  const READ_OPCODE: nat := 6
  const OPCODE_BITS: nat := 3

  /** The bit `k` of a number. */
  predicate Bit(x: nat, k: nat) {
    if k == 0 then x % 2 == 1 else Bit(x / 2, k - 1)
  }

  /** The low `n` bits, most significant first. */
  function BitsOf(x: nat, n: nat): (b: seq<bool>)
    ensures |b| == n
  {
    if n == 0 then [] else BitsOf(x / 2, n - 1) + [x % 2 == 1]
  }

  function ValueOf(b: seq<bool>): (r: nat) {
    if b == [] then 0 else 2 * ValueOf(b[..|b| - 1]) + (if b[|b| - 1] then 1 else 0)
  }

  lemma {:induction false} BitsAt(x: nat, n: nat, j: nat)
    requires j < n
    ensures BitsOf(x, n)[j] == Bit(x, n - 1 - j)
  {
    if j < n - 1 {
      BitsAt(x / 2, n - 1, j);
    }
  }

  lemma {:induction false} BitsRoundTrip(x: nat, n: nat)
    requires x < Pow2(n)
    ensures ValueOf(BitsOf(x, n)) == x
  {
    if n > 0 {
      var b := BitsOf(x / 2, n - 1);
      assert (b + [x % 2 == 1])[..n - 1] == b;
      BitsRoundTrip(x / 2, n - 1);
    }
  }

  /** A three-wire EEPROM with `addressBits` address bits and a 16-bit word for each address. */
  datatype Chip = Chip(words: seq<nat>, addressBits: nat)

  ghost predicate ValidChip(c: Chip) {
    1 <= c.addressBits <= 16 && |c.words| == Pow2(c.addressBits) && forall i :: 0 <= i < |c.words| ==> c.words[i] < 0x1_0000
  }

  /** What the device remembers: its input pins, the command bits since it was selected, and the data bits it has presented. */
  datatype Device = Device(cs: bool, sk: bool, cmd: seq<bool>, presented: nat)

  function CommandBits(c: Chip): (r: nat) {
    OPCODE_BITS + c.addressBits
  }

  /** A write to the register: selecting starts a command, and each rising clock edge takes in or presents one bit. */
  function Written(c: Chip, d: Device, r: Reg): (result: Device) {
    if !r.cs then Device(false, r.sk, [], 0)
    else if !d.cs then Device(true, r.sk, [], 0)
    else if !d.sk && r.sk then
      if |d.cmd| < CommandBits(c) then Device(true, true, d.cmd + [r.di], 0) else Device(true, true, d.cmd, d.presented + 1)
    else d.(sk := r.sk)
  }

  /** A complete READ command, and the address in it. */
  predicate Reading(c: Chip, d: Device) {
    |d.cmd| == CommandBits(c) && d.cmd[..OPCODE_BITS] == BitsOf(READ_OPCODE, OPCODE_BITS)
  }

  /** Data bit `k` from an address on: words follow one another, each most significant bit first. */
  predicate DataBit(c: Chip, address: nat, k: nat) {
    var w := address + k / 16;
    w < |c.words| && BitsOf(c.words[w], 16)[k % 16]
  }

  predicate DataOut(c: Chip, d: Device) {
    Reading(c, d) && d.presented > 0 && DataBit(c, ValueOf(d.cmd[OPCODE_BITS..]), d.presented - 1)
  }

  class Adapter {
    const chip: Chip
    const surpriseRemoved: bool
    var reg: Reg
    var device: Device

    /** Between reads the device is not selected and the clock is low. */
    ghost predicate Idle()
      reads this
    {
      ValidChip(chip) && !device.cs && !device.sk
    }

    /** A command is being shifted out, clock low. */
    ghost predicate Selected()
      reads this
    {
      ValidChip(chip) && device.cs && !device.sk && reg.cs && !reg.sk
    }

    constructor (chip: Chip, surpriseRemoved: bool)
      requires ValidChip(chip)
      ensures Idle() && this.chip == chip && this.surpriseRemoved == surpriseRemoved
    {
      this.chip, this.surpriseRemoved := chip, surpriseRemoved;
      reg, device := Reg(false, false, false, false, false, false), Device(false, false, [], 0);
    }

    method Write8(x: Reg)
      modifies this
      ensures reg == x && device == Written(chip, old(device), x)
    {
      reg := x;
      device := Written(chip, device, x);
    }

    method Read8() returns (x: Reg)
      ensures x == reg.(dout := DataOut(chip, device))
    {
      x := reg.(dout := DataOut(chip, device));
    }

    method UpClk(x: Reg) returns (x': Reg)
      modifies this
      ensures x' == x.(sk := true) && reg == x' && device == Written(chip, old(device), x')
    {
      x' := x.(sk := true);
      Write8(x');
    }

    method DownClk(x: Reg) returns (x': Reg)
      modifies this
      ensures x' == x.(sk := false) && reg == x' && device == Written(chip, old(device), x')
    {
      x' := x.(sk := false);
      Write8(x');
    }

    /** One bit: data set up while the clock is low, then a clock pulse. */
    method ShiftOutBit(x: Reg, bit: bool) returns (x': Reg)
      requires Selected() && x.cs && !x.sk && |device.cmd| < CommandBits(chip)
      modifies this
      ensures Selected() && x' == x.(di := bit) && reg == x'
      ensures device == Device(true, false, old(device.cmd) + [bit], 0)
    {
      x' := x.(di := bit);
      Write8(x');
      x' := UpClk(x');
      x' := DownClk(x');
    }

    /** The low `count` bits of the data reach the device most significant first, one at each rising edge. */
    method ShiftOutBits(data: nat, count: nat)
      requires Selected() && 1 <= count && |device.cmd| + count <= CommandBits(chip) && device.presented == 0
      modifies this
      ensures Selected()
      ensures device == if surpriseRemoved then old(device) else Device(true, false, old(device.cmd) + BitsOf(data, count), 0)
    {
      if surpriseRemoved {
        return;
      }
      var x := Read8();
      x := x.(dout := false, di := false);
      var mask: int := count - 1; // the bit that mask holds
      while mask >= 0
        invariant -1 <= mask < count && Selected() && x.cs && !x.sk
        invariant device == Device(true, false, old(device.cmd) + BitsOf(data, count)[..count - 1 - mask], 0)
      {
        BitsAt(data, count, count - 1 - mask);
        ghost var b, n := BitsOf(data, count), count - 1 - mask;
        assert b[..n + 1] == b[..n] + [Bit(data, mask)];
        x := ShiftOutBit(x, Bit(data, mask));
        mask := mask - 1;
      }
      assert BitsOf(data, count)[..count] == BitsOf(data, count);
      x := x.(di := false);
      Write8(x);
    }

    /** One clock pulse, with the data pin read while the clock is high. */
    method ShiftInBit(x: Reg) returns (x': Reg, bit: bool)
      requires Selected() && x.cs && !x.sk && |device.cmd| == CommandBits(chip)
      modifies this
      ensures Selected() && x'.cs && !x'.sk
      ensures device == old(device).(presented := old(device.presented) + 1) && bit == DataOut(chip, device)
    {
      x' := UpClk(x);
      x' := Read8();
      x' := x'.(di := false);
      bit := x'.dout;
      x' := DownClk(x');
    }

    /** shift_in_bits rebuilds the 16 bits the device presents: the next word from the address of the command. */
    method ShiftInBits() returns (d: nat)
      requires Selected() && AtWord(chip, device)
      modifies this
      ensures Selected() && device == if surpriseRemoved then old(device) else old(device).(presented := old(device.presented) + 16)
      ensures d == if surpriseRemoved then 0 else NextWord(chip, old(device))
    {
      if surpriseRemoved {
        return 0;
      }
      var x := Read8();
      x := x.(dout := false, di := false);
      d := 0;
      ghost var w := NextWord(chip, device);
      var i := 0;
      while i < 16
        invariant 0 <= i <= 16 && Selected() && x.cs && !x.sk
        invariant device == old(device).(presented := old(device.presented) + i)
        invariant d == ValueOf(BitsOf(w, 16)[..i])
      {
        ShiftStep(w, i, d);
        NextBit(chip, old(device), i);
        d := d * 2 % 0x1_0000;
        var bit: bool;
        x, bit := ShiftInBit(x);
        if bit {
          d := d + 1;
        }
        i := i + 1;
      }
      WholeWord(w);
    }

    /** eeprom_clean: deselect, and one pulse. */
    method EepromClean()
      requires ValidChip(chip)
      modifies this
      ensures if surpriseRemoved then device == old(device) else Idle()
    {
      if surpriseRemoved {
        return;
      }
      var x := Read8();
      x := x.(cs := false, di := false);
      Write8(x);
      x := UpClk(x);
      x := DownClk(x);
    }

    /** Select the device and send it the READ command for a word. */
    method StartRead(regNo: nat)
      requires Idle() && regNo < |chip.words| && !surpriseRemoved
      modifies this
      ensures Selected() && Reading(chip, device) && device.presented == 0 && Address(chip, device) == regNo
    {
      var x := Read8();
      x := x.(di := false, dout := false, sk := false, em0 := false, em1 := true, cs := true);
      Write8(x);
      ShiftOutBits(READ_OPCODE, OPCODE_BITS);
      ShiftOutBits(regNo, chip.addressBits);
      BitsRoundTrip(regNo, chip.addressBits);
      assert device.cmd[OPCODE_BITS..] == BitsOf(regNo, chip.addressBits);
    }

    method EepromRead16(regNo: nat) returns (data: nat)
      requires Idle() && regNo < |chip.words|
      modifies this
      ensures Idle() && data == if surpriseRemoved then 0 else chip.words[regNo]
    {
      if surpriseRemoved {
        return 0;
      }
      StartRead(regNo);
      data := ShiftInBits();
      EepromClean();
    }

    /** Two bytes of the caller's buffer */
    method PutWord(buf: array<nat>, at: nat, data16: nat)
      requires at + 2 <= buf.Length
      modifies buf
      ensures buf[..at + 2] == old(buf[..at]) + [data16 % 256, data16 / 256]
      ensures forall k :: at + 2 <= k < buf.Length ==> buf[k] == old(buf[k])
    {
      buf[at] := data16 % 256;
      buf[at + 1] := data16 / 256;
    }

    /** One command, then as many words as the bytes need: the device goes on to the following words by itself. */
    method EepromReadSz(regNo: nat, data: array<nat>, sz: nat)
      requires Idle() && 2 * Words(sz) <= data.Length && regNo + Words(sz) <= |chip.words| && regNo < |chip.words|
      modifies this, data
      ensures Idle() && (surpriseRemoved ==> data[..] == old(data[..]))
      ensures !surpriseRemoved ==> data[..2 * Words(sz)] == Bytes(chip, 2 * regNo, 2 * Words(sz))
      ensures forall k :: 2 * Words(sz) <= k < data.Length ==> data[k] == old(data[k])
    {
      if surpriseRemoved {
        return;
      }
      StartRead(regNo);
      ghost var started, k, n := device, 0, Words(sz);
      var i := 0;
      while i < sz
        invariant i == 2 * k && k <= n && Selected() && device == started.(presented := 16 * k)
        invariant data[..2 * k] == WordBytes(chip, regNo, k)
        invariant forall j :: 2 * n <= j < data.Length ==> data[j] == old(data[j])
      {
        k := k + 1;
        ReadNext(regNo, data, i, started, k - 1);
        i := i + 2;
      }
      assert k == n;
      EepromClean();
      WordBytesAre(chip, regNo, n);
    }

    /** One round of the loop: the next word of the device, low byte first. */
    method ReadNext(ghost regNo: nat, data: array<nat>, i: nat, ghost started: Device, ghost k: nat)
      requires !surpriseRemoved && Selected() && Reading(chip, started) && started.presented == 0 && Address(chip, started) == regNo
      requires i == 2 * k && i + 2 <= data.Length && regNo + k < |chip.words| && device == started.(presented := 16 * k)
      requires data[..i] == WordBytes(chip, regNo, k)
      modifies this, data
      ensures Selected() && device == started.(presented := 16 * (k + 1))
      ensures data[..i + 2] == WordBytes(chip, regNo, k + 1)
      ensures forall j :: i + 2 <= j < data.Length ==> data[j] == old(data[j])
    {
      WordAt(chip, started, k);
      var data16 := ShiftInBits();
      PutWord(data, i, data16);
    }

    /** eeprom_read: exactly the bytes of the little-endian view of the words, from an even or an odd start, for any length from 1. */
    method EepromRead(addrOff: nat, sz: nat, rbuf: array<nat>)
      requires Idle() && 1 <= sz < 256 && sz <= rbuf.Length && addrOff + sz <= 2 * |chip.words| && |chip.words| <= 0x1_0000
      modifies this, rbuf
      ensures Idle() && (!surpriseRemoved ==> rbuf[..sz] == Bytes(chip, addrOff, sz))
      ensures forall k :: sz <= k < rbuf.Length ==> rbuf[k] == old(rbuf[k])
    {
      var regNo, left, idx := addrOff / 2 % 0x1_0000, sz, 0;
      if addrOff % 2 == 1 {
        var stmp := EepromRead16(regNo);
        rbuf[0] := stmp / 256 % 256;
        FirstByte(chip, addrOff);
        assert !surpriseRemoved ==> rbuf[..1] == Bytes(chip, addrOff, 1);
        idx, regNo, left := 1, regNo + 1, left - 1;
      }
      idx, regNo := ReadPairs(regNo, left / 2, idx, rbuf, addrOff, sz);
      if left % 2 == 1 {
        ReadTail(regNo, rbuf, idx, addrOff);
      }
    }

    /** "end of read at lower part of short" */
    method ReadTail(regNo: nat, rbuf: array<nat>, idx: nat, ghost addrOff: nat)
      requires Idle() && idx < rbuf.Length && regNo < |chip.words| && addrOff + idx == 2 * regNo
      requires !surpriseRemoved ==> rbuf[..idx] == Bytes(chip, addrOff, idx)
      modifies this, rbuf
      ensures Idle() && (!surpriseRemoved ==> rbuf[..idx + 1] == Bytes(chip, addrOff, idx + 1))
      ensures forall k :: idx + 1 <= k < rbuf.Length ==> rbuf[k] == old(rbuf[k])
    {
      LastByte(chip, addrOff, idx, regNo);
      var stmp := EepromRead16(regNo);
      rbuf[idx] := stmp % 256;
      assert rbuf[..idx + 1] == rbuf[..idx] + [stmp % 256];
    }

    method ReadPairs(regNo: nat, quotient: nat, start: nat, rbuf: array<nat>, ghost addrOff: nat, sz: nat)
      returns (idx: nat, regNo': nat)
      requires Idle() && sz <= rbuf.Length && addrOff + sz <= 2 * |chip.words| && start + 2 * quotient <= sz
      requires 2 * regNo == addrOff + start && (!surpriseRemoved ==> rbuf[..start] == Bytes(chip, addrOff, start))
      modifies this, rbuf
      ensures Idle() && idx == start + 2 * quotient && 2 * regNo' == addrOff + idx
      ensures !surpriseRemoved ==> rbuf[..idx] == Bytes(chip, addrOff, idx)
      ensures forall k :: sz <= k < rbuf.Length ==> rbuf[k] == old(rbuf[k])
    {
      idx := start;
      var i := 0;
      while i < quotient
        invariant i <= quotient && idx == start + 2 * i && Idle()
        invariant !surpriseRemoved ==> rbuf[..idx] == Bytes(chip, addrOff, idx)
        invariant forall k :: sz <= k < rbuf.Length ==> rbuf[k] == old(rbuf[k])
      {
        BytesWord(chip, addrOff, idx, regNo + i);
        var stmp := EepromRead16(regNo + i);
        PutWord(rbuf, idx, stmp);
        idx := idx + 2;
        i := i + 1;
      }
      regNo' := regNo + i;
    }
  }

  /** How many words hold `sz` bytes. */
  function Words(sz: nat): (r: nat) {
    (sz + 1) / 2
  }

  /** The bytes of `k` words, low byte of each first. */
  function WordBytes(c: Chip, w: nat, k: nat): (b: seq<nat>)
    requires w + k <= |c.words|
    ensures |b| == 2 * k
  {
    if k == 0 then [] else WordBytes(c, w, k - 1) + [c.words[w + k - 1] % 256, c.words[w + k - 1] / 256]
  }

  lemma {:induction false} WordBytesAre(c: Chip, w: nat, k: nat)
    requires w + k <= |c.words|
    ensures WordBytes(c, w, k) == Bytes(c, 2 * w, 2 * k)
  {
    if k > 0 {
      WordBytesAre(c, w, k - 1);
      BytesWord(c, 2 * w, 2 * (k - 1), w + k - 1);
    }
  }

  /** Byte `a` of the words, low byte of each word first. */
  function ByteAt(c: Chip, a: nat): (r: nat)
    requires a < 2 * |c.words|
  {
    if a % 2 == 0 then c.words[a / 2] % 256 else c.words[a / 2] / 256
  }

  /** The `n` bytes from `a` on. */
  function Bytes(c: Chip, a: nat, n: nat): (b: seq<nat>)
    requires a + n <= 2 * |c.words|
    ensures |b| == n
  {
    if n == 0 then [] else Bytes(c, a, n - 1) + [ByteAt(c, a + n - 1)]
  }

  lemma BytesWord(c: Chip, a: nat, n: nat, w: nat)
    requires a + n == 2 * w && w < |c.words|
    ensures Bytes(c, a, n + 2) == Bytes(c, a, n) + [c.words[w] % 256, c.words[w] / 256]
  {
    assert ByteAt(c, a + n) == c.words[w] % 256 && ByteAt(c, a + n + 1) == c.words[w] / 256;
    assert Bytes(c, a, n + 2) == (Bytes(c, a, n) + [ByteAt(c, a + n)]) + [ByteAt(c, a + n + 1)];
  }

  lemma LastByte(c: Chip, a: nat, n: nat, w: nat)
    requires a + n == 2 * w && w < |c.words|
    ensures Bytes(c, a, n + 1) == Bytes(c, a, n) + [c.words[w] % 256]
  {
    assert (a + n) / 2 == w;
  }

  /** An odd start: the high byte of its word comes first. */
  lemma FirstByte(c: Chip, a: nat)
    requires ValidChip(c) && a % 2 == 1 && a < 2 * |c.words|
    ensures Bytes(c, a, 1) == [c.words[a / 2] / 256 % 256]
  {
    assert Bytes(c, a, 0) == [];
    assert Bytes(c, a, 1) == Bytes(c, a, 0) + [ByteAt(c, a)];
  }

  lemma WordAt(c: Chip, d: Device, k: nat)
    requires Reading(c, d) && d.presented == 0 && Address(c, d) + k < |c.words|
    ensures AtWord(c, d.(presented := 16 * k)) && NextWord(c, d.(presented := 16 * k)) == c.words[Address(c, d) + k]
  {
    assert 16 * k / 16 == k && 16 * k % 16 == 0;
  }

  ghost function Address(c: Chip, d: Device): (r: nat)
    requires |d.cmd| == CommandBits(c)
  {
    ValueOf(d.cmd[OPCODE_BITS..])
  }

  /** The device stands before the first bit of a word. */
  ghost predicate AtWord(c: Chip, d: Device) {
    Reading(c, d) && d.presented % 16 == 0 && Address(c, d) + d.presented / 16 < |c.words|
  }

  ghost function NextWord(c: Chip, d: Device): (r: nat)
    requires AtWord(c, d)
  {
    c.words[Address(c, d) + d.presented / 16]
  }

  /** Shifting left and taking in the next bit, in 16 bits. */
  lemma ShiftStep(w: nat, i: nat, v: nat)
    requires i < 16 && v == ValueOf(BitsOf(w, 16)[..i])
    ensures ValueOf(BitsOf(w, 16)[..i + 1]) == v * 2 % 0x1_0000 + (if BitsOf(w, 16)[i] then 1 else 0)
  {
    var b := BitsOf(w, 16);
    ValueSnoc(b, i);
    ValueBound(b[..i]);
  }

  lemma ValueSnoc(b: seq<bool>, i: nat)
    requires i < |b|
    ensures ValueOf(b[..i + 1]) == 2 * ValueOf(b[..i]) + (if b[i] then 1 else 0)
  {
    assert b[..i + 1][..i] == b[..i];
  }

  lemma {:induction false} ValueBound(b: seq<bool>)
    requires |b| < 16
    ensures ValueOf(b) < 0x8000
  {
    ValueBelow(b);
    Pow2Grows(|b|, 15);
    assert Pow2(15) == 0x8000;
  }

  lemma {:induction false} ValueBelow(b: seq<bool>)
    ensures ValueOf(b) < Pow2(|b|)
  {
    if b != [] {
      ValueBelow(b[..|b| - 1]);
    }
  }

  lemma NextBit(c: Chip, d: Device, i: nat)
    requires AtWord(c, d) && i < 16
    ensures DataOut(c, d.(presented := d.presented + i + 1)) == BitsOf(NextWord(c, d), 16)[i]
  {
    PlacedBit(c, Address(c, d), d.presented, i);
  }

  lemma PlacedBit(c: Chip, address: nat, p: nat, i: nat)
    requires p % 16 == 0 && i < 16 && address + p / 16 < |c.words|
    ensures DataBit(c, address, p + i) == BitsOf(c.words[address + p / 16], 16)[i]
  {
    Place(p, i);
  }

  lemma Place(p: nat, i: nat)
    requires p % 16 == 0 && i < 16
    ensures (p + i) / 16 == p / 16 && (p + i) % 16 == i
  {
  }

  lemma WholeWord(w: nat)
    requires w < 0x1_0000
    ensures ValueOf(BitsOf(w, 16)[..16]) == w
  {
    assert Pow2(8) == 0x100;
    assert Pow2(16) == 0x1_0000;
    BitsRoundTrip(w, 16);
    assert BitsOf(w, 16)[..16] == BitsOf(w, 16);
  }
}
