/**
 * The platform-level interrupt controller (plic/src/lib.rs). Its registers
 * sit in a memory-mapped window reached through `Mmio` (mmio/src/lib.rs),
 * which reads and writes a value of a given width at a byte offset from the
 * window's base address. The device behind the window is abstract: each
 * read's answer is a function of the register, the width and every access
 * issued before it, and the model records the accesses in order. What the
 * model states is how the driver turns register words into interrupts and
 * interrupt settings into register words.
 */
module Plics {
  import opened Bytes
  import opened Wrappers

  /** `MMIO_ADDRESS`: the default base of the window. */
  const MMIO_ADDRESS: nat := 0x5000
  /** Byte offset of the threshold register. */
  const THRESHOLD_REGISTER: nat := 0
  /** Byte offset of the register naming the pending interrupt. */
  const PENDING_IRQ_REGISTER: nat := 1
  /** Byte offset of the register that takes interrupt settings. */
  const IRQ_INFO_REGISTER: nat := 1
  /** Byte offset of the first interrupt's status word. */
  const IRQS_OFFSET: nat := 0x10

  /** One volatile access: a read or a write of `width` bytes at `offset` from the base. */
  datatype Access =
    | Read(offset: nat, width: nat)
    | Write(offset: nat, width: nat, value: nat)

  /**
   * `struct Mmio`: a window at `address`. `answer(offset, width, before)` is
   * what the device returns to a read, given the accesses issued before it;
   * `log` holds every access issued, in order.
   */
  class Mmio {
    const address: nat
    const answer: (nat, nat, seq<Access>) -> nat
    var log: seq<Access>

    /** `Mmio::new(address)`, before any access. */
    constructor (address: nat, answer: (nat, nat, seq<Access>) -> nat)
      ensures this.address == address && this.answer == answer && log == []
    {
      this.address := address;
      this.answer := answer;
      log := [];
    }

    /** `read_u8(offset)`: the device's answer, one byte wide. */
    method ReadU8(offset: nat) returns (v: byte)
      modifies this
      ensures v == answer(offset, 1, old(log)) % 0x100
      ensures log == old(log) + [Read(offset, 1)]
    {
      v := answer(offset, 1, log) % 0x100;
      log := log + [Read(offset, 1)];
    }

    /** `read_u16(offset)`: the device's answer, two bytes wide. */
    method ReadU16(offset: nat) returns (v: u16)
      modifies this
      ensures v == answer(offset, 2, old(log)) % 0x1_0000
      ensures log == old(log) + [Read(offset, 2)]
    {
      v := answer(offset, 2, log) % 0x1_0000;
      log := log + [Read(offset, 2)];
    }

    /** `write_u8(value, offset)`. */
    method WriteU8(value: byte, offset: nat)
      modifies this
      ensures log == old(log) + [Write(offset, 1, value)]
    {
      log := log + [Write(offset, 1, value)];
    }

    /** `write_u32(value, offset)`. */
    method WriteU32(value: u32, offset: nat)
      modifies this
      ensures log == old(log) + [Write(offset, 4, value)]
    {
      log := log + [Write(offset, 4, value)];
    }
  }

  /** `struct Irq` (plic/src/irq.rs, not part of this model; its fields are the three `irq` fills). */
  datatype Irq = Irq(priority: byte, isEnabled: bool, isPending: bool)

  /** `#[repr(u8)] enum IrqValueType`: which setting a write to the info register changes. */
  datatype IrqValueType = Priority | IsEnabled | Claim {
    /** The declared discriminant. */
    function Code(): (c: byte)
      ensures c <= 2
    {
      match this
      case Priority => 0
      case IsEnabled => 1
      case Claim => 2
    }
  }

  /** The pending-interrupt register as `pending_irq` reads it: 0 means none, any other byte names the interrupt. */
  function PendingOf(register: byte): (r: Option<byte>)
    ensures r.None? <==> register == 0
    ensures r.Some? ==> r.value == register
  {
    if register == 0 then None else Some(register)
  }

  /** The byte offset of interrupt `irqIdx`'s status word: `irq_idx as usize + IRQS_OFFSET`. */
  function IrqRegister(irqIdx: byte): (o: nat)
    ensures IRQS_OFFSET <= o < IRQS_OFFSET + 0x100
  {
    irqIdx as nat + IRQS_OFFSET
  }

  /**
   * An interrupt's status word as `irq` decodes it: an all-zero word is no
   * interrupt; otherwise the low byte is the priority (`as u8`), bit 8 says
   * enabled and bit 9 pending (`(bits >> n) & 1`, written here as the
   * quotient by 2^n taken modulo 2). The bits above 9 are not looked at.
   */
  function IrqOf(bits: u16): (r: Option<Irq>)
    ensures r.None? <==> bits == 0
  {
    if bits == 0 then None
    else Some(Irq(bits % 0x100, (bits / 0x100) % 2 == 1, (bits / 0x200) % 2 == 1))
  }

  /** An interrupt's status as a word, with bits 10 to 15 clear. */
  function IrqBits(irq: Irq): (bits: u16)
    ensures bits < 0x400
  {
    irq.priority + (if irq.isEnabled then 0x100 else 0) + (if irq.isPending then 0x200 else 0)
  }

  /**
   * A status word decodes to the status it holds, except that a status of
   * priority 0, disabled and not pending is the zero word, which `irq`
   * reports as no interrupt at all; and the bits above 9 do not matter.
   */
  lemma IrqRoundTrip(irq: Irq, high: nat)
    requires high < 0x40
    ensures IrqOf(IrqBits(irq)) == (if irq == Irq(0, false, false) then None else Some(irq))
    ensures IrqBits(irq) != 0 ==> IrqOf(IrqBits(irq) + 0x400 * high) == IrqOf(IrqBits(irq))
  {
    var e, q := if irq.isEnabled then 1 else 0, if irq.isPending then 1 else 0;
    StatusBits(irq.priority, e, q, 0);
    StatusBits(irq.priority, e, q, high);
  }

  /** Decoding a nonzero status word keeps exactly its low ten bits. */
  lemma IrqOfKeepsLowBits(bits: u16)
    requires bits != 0
    ensures IrqBits(IrqOf(bits).value) == bits % 0x400
  {
    var p, e, q, k := bits % 0x100, (bits / 0x100) % 2, (bits / 0x200) % 2, bits / 0x400;
    DivDiv(bits, 0x100, 2);
    DivDiv(bits, 0x200, 2);
    assert bits / 0x200 == q + 2 * k;
    assert bits / 0x100 == e + 2 * (bits / 0x200);
    assert bits == p + 0x100 * e + 0x200 * q + 0x400 * k;
    StatusBits(p, e, q, k);
    DivAddMultiple(k, p + 0x100 * e + 0x200 * q, 0x400);
  }

  /** The fields of a status word p + 2^8 e + 2^9 q + 2^10 k, read back. */
  lemma StatusBits(p: byte, e: nat, q: nat, k: nat)
    requires e < 2 && q < 2
    ensures var w := p + 0x100 * e + 0x200 * q + 0x400 * k;
      && w % 0x100 == p && (w / 0x100) % 2 == e && (w / 0x200) % 2 == q
  {
    var w := p + 0x100 * e + 0x200 * q + 0x400 * k;
    DivAddMultiple(e + 2 * q + 4 * k, p, 0x100);
    DivAddMultiple(q + 2 * k, e, 2);
    DivDiv(w, 0x100, 2);
    DivAddMultiple(k, q, 2);
  }

  /**
   * The word `set_value` writes: `value << 16 | type << 8 | irq_idx`. The
   * three bytes occupy disjoint bits, so the `|` of the shifted bytes is
   * their sum in base 256.
   */
  function ValueWord(irqIdx: byte, valueType: IrqValueType, value: byte): (w: u32)
    ensures w < 0x100_0000
  {
    0x1_0000 * value + 0x100 * valueType.Code() + irqIdx
  }

  /** Each field of a setting is recovered from the word: the index from byte 0, the type from byte 1, the value from byte 2. */
  lemma ValueWordFields(irqIdx: byte, valueType: IrqValueType, value: byte)
    ensures var w := ValueWord(irqIdx, valueType, value);
      && w % 0x100 == irqIdx && (w / 0x100) % 0x100 == valueType.Code() && w / 0x1_0000 == value
  {
    var w := ValueWord(irqIdx, valueType, value);
    DivAddMultiple(valueType.Code() + 0x100 * value, irqIdx, 0x100);
    DivAddMultiple(value, valueType.Code(), 0x100);
    DivDiv(w, 0x100, 0x100);
  }

  /** Two settings write the same word only when they are the same setting. */
  lemma ValueWordInjective(i: byte, t: IrqValueType, v: byte, i': byte, t': IrqValueType, v': byte)
    ensures ValueWord(i, t, v) == ValueWord(i', t', v') ==> i == i' && t == t' && v == v'
  {
    ValueWordFields(i, t, v);
    ValueWordFields(i', t', v');
  }

  /**
   * Interrupt status words are two bytes wide but one byte apart, so the
   * word of interrupt i and the word of interrupt i + 1 share a byte; and
   * the pending-interrupt register is the register settings are written to.
   */
  lemma RegisterLayout(irqIdx: byte)
    requires irqIdx < 0xFF
    ensures IrqRegister(irqIdx) < IrqRegister(irqIdx + 1) < IrqRegister(irqIdx) + 2
    ensures PENDING_IRQ_REGISTER == IRQ_INFO_REGISTER
  {
  }

  /**
   * The MMIO accessors cast `address + offset` to a pointer of the access's
   * width and use `write_volatile`/`read_volatile`, which need that pointer
   * aligned to the width. In a window whose address is a multiple of 4, the
   * 32-bit settings write at offset 1 is never aligned, and the 16-bit
   * status read of every odd-numbered interrupt is not either.
   */
  lemma MisalignedAccesses(address: nat, irqIdx: byte)
    requires address % 4 == 0
    ensures (address + IRQ_INFO_REGISTER) % 4 != 0
    ensures irqIdx % 2 == 1 ==> (address + IrqRegister(irqIdx)) % 2 == 1
  {
    var q := address / 4;
    assert address == q * 4;
    DivAddMultiple(q, 1, 4);
    if irqIdx % 2 == 1 {
      var t := irqIdx as int / 2;
      assert address + IrqRegister(irqIdx) == (2 * q + 8 + t) * 2 + 1;
      DivAddMultiple(2 * q + 8 + t, 1, 2);
    }
  }

  /** `struct Plic`: the controller's register window. */
  class Plic {
    const mmio: Mmio

    /** `Plic::new(address)`; `Default` is `Plic::new(MMIO_ADDRESS)`. */
    constructor (address: nat, answer: (nat, nat, seq<Access>) -> nat)
      ensures fresh(mmio) && mmio.address == address && mmio.answer == answer && mmio.log == []
    {
      mmio := new Mmio(address, answer);
    }

    /** `threshold()`: the threshold register's byte. */
    method Threshold() returns (t: byte)
      modifies mmio
      ensures t == mmio.answer(THRESHOLD_REGISTER, 1, old(mmio.log)) % 0x100
      ensures mmio.log == old(mmio.log) + [Read(THRESHOLD_REGISTER, 1)]
    {
      t := mmio.ReadU8(THRESHOLD_REGISTER);
    }

    /** `pending_irq()`: the pending-interrupt register read as a byte, 0 meaning none. */
    method PendingIrq() returns (r: Option<byte>)
      modifies mmio
      ensures r == PendingOf(mmio.answer(PENDING_IRQ_REGISTER, 1, old(mmio.log)) % 0x100)
      ensures mmio.log == old(mmio.log) + [Read(PENDING_IRQ_REGISTER, 1)]
    {
      var irq := mmio.ReadU8(PENDING_IRQ_REGISTER);
      if irq == 0 {
        r := None;
      } else {
        r := Some(irq);
      }
    }

    /** `irq(irq_idx)`: the interrupt's status word read and decoded. */
    method GetIrq(irqIdx: byte) returns (r: Option<Irq>)
      modifies mmio
      ensures r == IrqOf(mmio.answer(IrqRegister(irqIdx), 2, old(mmio.log)) % 0x1_0000)
      ensures mmio.log == old(mmio.log) + [Read(IrqRegister(irqIdx), 2)]
    {
      var irqBits := mmio.ReadU16(irqIdx as nat + IRQS_OFFSET);
      if irqBits == 0 {
        return None;
      }
      var priority := irqBits % 0x100;
      var isEnabled := (irqBits / 0x100) % 2 != 0;
      var isPending := (irqBits / 0x200) % 2 != 0;
      r := Some(Irq(priority, isEnabled, isPending));
    }

    /** `set_threshold(value)`: one byte written to the threshold register. */
    method SetThreshold(value: byte)
      modifies mmio
      ensures mmio.log == old(mmio.log) + [Write(THRESHOLD_REGISTER, 1, value)]
    {
      mmio.WriteU8(value, THRESHOLD_REGISTER);
    }

    /** `set_value(irq_idx, value_type, value)`: the packed word written to the info register. */
    method SetValue(irqIdx: byte, valueType: IrqValueType, value: byte)
      modifies mmio
      ensures mmio.log == old(mmio.log) + [Write(IRQ_INFO_REGISTER, 4, ValueWord(irqIdx, valueType, value))]
    {
      var typeBits := 0x100 * valueType.Code();
      var valueBits := 0x1_0000 * value;
      mmio.WriteU32(valueBits + typeBits + irqIdx, IRQ_INFO_REGISTER);
    }

    /** `set_priority(irq_idx, priority)`: a `Priority` setting carrying the priority. */
    method SetPriority(irqIdx: byte, priority: byte)
      modifies mmio
      ensures mmio.log == old(mmio.log) + [Write(IRQ_INFO_REGISTER, 4, ValueWord(irqIdx, Priority, priority))]
    {
      SetValue(irqIdx, Priority, priority);
    }

    /** `set_enabled(irq_idx, enabled)`: an `IsEnabled` setting carrying 1 or 0. */
    method SetEnabled(irqIdx: byte, enabled: bool)
      modifies mmio
      ensures mmio.log == old(mmio.log) + [Write(IRQ_INFO_REGISTER, 4, ValueWord(irqIdx, IsEnabled, if enabled then 1 else 0))]
    {
      SetValue(irqIdx, IsEnabled, if enabled then 1 else 0);
    }

    /** `claim(irq_idx)`: a `Claim` setting carrying 1. */
    method Claim(irqIdx: byte)
      modifies mmio
      ensures mmio.log == old(mmio.log) + [Write(IRQ_INFO_REGISTER, 4, ValueWord(irqIdx, IrqValueType.Claim, 1))]
    {
      SetValue(irqIdx, IrqValueType.Claim, 1);
    }
  }
}
