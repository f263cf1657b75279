/**
 * Instruction decoding (scripts/cpu.mjs, `executeInstruction`): a 16-bit word
 * is split into its fields and classified by its high nibble, then, in the
 * 0, 8, E and F groups, by the whole word, the low nibble or the low byte.
 */
module Opcodes {
  import opened Bytes

  /** The register-to-register operations of the 8xyN group, by their low nibble. */
  datatype AluOp = Mov | Or | And | Xor | AddCarry | Sub | Shr | SubN | Shl

  /** The 34 CHIP-8 instruction forms, with the fields each one uses. */
  datatype Instr =
    | Cls                             // 00E0
    | Ret                             // 00EE
    | Jp(nnn: addr)                   // 1nnn
    | Call(nnn: addr)                 // 2nnn
    | SeByte(x: nibble, kk: byte)     // 3xkk
    | SneByte(x: nibble, kk: byte)    // 4xkk
    | SeReg(x: nibble, y: nibble)     // 5xy_ (the low nibble is not examined)
    | LdByte(x: nibble, kk: byte)     // 6xkk
    | AddByte(x: nibble, kk: byte)    // 7xkk
    | Alu(f: AluOp, x: nibble, y: nibble)  // 8xy0..8xy7, 8xyE
    | SneReg(x: nibble, y: nibble)    // 9xy_ (the low nibble is not examined)
    | LdI(nnn: addr)                  // Annn
    | JpV0(nnn: addr)                 // Bnnn
    | Rnd(x: nibble, kk: byte)        // Cxkk
    | Drw(x: nibble, y: nibble, n: nibble)  // Dxyn
    | Skp(x: nibble)                  // Ex9E
    | Sknp(x: nibble)                 // ExA1
    | LdVxDt(x: nibble)               // Fx07
    | LdKey(x: nibble)                // Fx0A
    | LdDtVx(x: nibble)               // Fx15
    | LdStVx(x: nibble)               // Fx18
    | AddI(x: nibble)                 // Fx1E
    | LdFont(x: nibble)               // Fx29
    | Bcd(x: nibble)                  // Fx33
    | StoreRegs(x: nibble)            // Fx55
    | LoadRegs(x: nibble)             // Fx65
    | Ignored(code: word)             // a sub-code of the 0, 8, E or F group that no case matches

  function AluCode(f: AluOp): nibble
  {
    match f
    case Mov => 0x0
    case Or => 0x1
    case And => 0x2
    case Xor => 0x3
    case AddCarry => 0x4
    case Sub => 0x5
    case Shr => 0x6
    case SubN => 0x7
    case Shl => 0xE
  }

  function DecodeAlu(n: nibble): Option<AluOp>
  {
    match n
    case 0x0 => Some(Mov)
    case 0x1 => Some(Or)
    case 0x2 => Some(And)
    case 0x3 => Some(Xor)
    case 0x4 => Some(AddCarry)
    case 0x5 => Some(Sub)
    case 0x6 => Some(Shr)
    case 0x7 => Some(SubN)
    case 0xE => Some(Shl)
    case _ => None
  }

  function DecodeF(x: nibble, kk: byte, op: word): Instr
  {
    match kk
    case 0x07 => LdVxDt(x)
    case 0x0A => LdKey(x)
    case 0x15 => LdDtVx(x)
    case 0x18 => LdStVx(x)
    case 0x1E => AddI(x)
    case 0x29 => LdFont(x)
    case 0x33 => Bcd(x)
    case 0x55 => StoreRegs(x)
    case 0x65 => LoadRegs(x)
    case _ => Ignored(op)
  }

  /** The low byte of each F-group form. */
  function FCode(ins: Instr): byte
    requires ins.LdVxDt? || ins.LdKey? || ins.LdDtVx? || ins.LdStVx? || ins.AddI? || ins.LdFont? || ins.Bcd? || ins.StoreRegs? || ins.LoadRegs?
  {
    match ins
    case LdVxDt(_) => 0x07
    case LdKey(_) => 0x0A
    case LdDtVx(_) => 0x15
    case LdStVx(_) => 0x18
    case AddI(_) => 0x1E
    case LdFont(_) => 0x29
    case Bcd(_) => 0x33
    case StoreRegs(_) => 0x55
    case LoadRegs(_) => 0x65
  }

  /**
   * x is bits 8..11 and y bits 4..7 of the word; kk is the low byte, n the low
   * nibble and nnn the low twelve bits.
   */
  function Decode(op: word): (r: Instr)
    ensures r.Ignored? ==> r.code == op && op / 0x1000 in {0x0, 0x8, 0xE, 0xF}
  {
    var x: nibble := (op / 0x100) % 0x10;
    var y: nibble := (op / 0x10) % 0x10;
    var n: nibble := op % 0x10;
    var kk: byte := op % 0x100;
    var nnn: addr := op % 0x1000;
    match op / 0x1000
    case 0x0 => if op == 0x00E0 then Cls else if op == 0x00EE then Ret else Ignored(op)
    case 0x1 => Jp(nnn)
    case 0x2 => Call(nnn)
    case 0x3 => SeByte(x, kk)
    case 0x4 => SneByte(x, kk)
    case 0x5 => SeReg(x, y)
    case 0x6 => LdByte(x, kk)
    case 0x7 => AddByte(x, kk)
    case 0x8 => (match DecodeAlu(n) case Some(f) => Alu(f, x, y) case None => Ignored(op))
    case 0x9 => SneReg(x, y)
    case 0xA => LdI(nnn)
    case 0xB => JpV0(nnn)
    case 0xC => Rnd(x, kk)
    case 0xD => Drw(x, y, n)
    case 0xE => if kk == 0x9E then Skp(x) else if kk == 0xA1 then Sknp(x) else Ignored(op)
    case 0xF => DecodeF(x, kk, op)
    // The high-nibble switch covers all sixteen values, so its `throw` is dead.
    case _ => assert false; Ignored(op)
  }

  /** The canonical word of an instruction: the ignored nibble of 5xy_ and 9xy_ is 0. */
  function Encode(ins: Instr): word
  {
    match ins
    case Cls => 0x00E0
    case Ret => 0x00EE
    case Jp(nnn) => 0x1000 + nnn
    case Call(nnn) => 0x2000 + nnn
    case SeByte(x, kk) => 0x3000 + x * 0x100 + kk
    case SneByte(x, kk) => 0x4000 + x * 0x100 + kk
    case SeReg(x, y) => 0x5000 + x * 0x100 + y * 0x10
    case LdByte(x, kk) => 0x6000 + x * 0x100 + kk
    case AddByte(x, kk) => 0x7000 + x * 0x100 + kk
    case Alu(f, x, y) => 0x8000 + x * 0x100 + y * 0x10 + AluCode(f)
    case SneReg(x, y) => 0x9000 + x * 0x100 + y * 0x10
    case LdI(nnn) => 0xA000 + nnn
    case JpV0(nnn) => 0xB000 + nnn
    case Rnd(x, kk) => 0xC000 + x * 0x100 + kk
    case Drw(x, y, n) => 0xD000 + x * 0x100 + y * 0x10 + n
    case Skp(x) => 0xE09E + x * 0x100
    case Sknp(x) => 0xE0A1 + x * 0x100
    case Ignored(op) => op
    case _ => 0xF000 + ins.x * 0x100 + FCode(ins)
  }

  /** A form the decoder produces from its own canonical word. */
  predicate Canonical(ins: Instr)
  {
    !ins.Ignored? || Decode(ins.code) == ins
  }

  /** The fields of a word assembled from four nibbles are those nibbles. */
  lemma Fields(w: word, h: nibble, x: nibble, y: nibble, n: nibble)
    requires w == h * 0x1000 + x * 0x100 + y * 0x10 + n
    ensures w / 0x1000 == h && (w / 0x100) % 0x10 == x && (w / 0x10) % 0x10 == y && w % 0x10 == n
    ensures w % 0x100 == y * 0x10 + n && w % 0x1000 == x * 0x100 + y * 0x10 + n
  {
    assert w / 0x10 == h * 0x100 + x * 0x10 + y;
    assert w / 0x100 == h * 0x10 + x;
  }

  /** Every word is assembled from its four nibbles. */
  lemma Split(w: word)
    ensures w == (w / 0x1000) * 0x1000 + ((w / 0x100) % 0x10) * 0x100 + ((w / 0x10) % 0x10) * 0x10 + w % 0x10
  {
    assert w == (w / 0x10) * 0x10 + w % 0x10;
    assert w / 0x10 == (w / 0x100) * 0x10 + (w / 0x10) % 0x10;
    assert w / 0x100 == (w / 0x1000) * 0x10 + (w / 0x100) % 0x10;
  }

  /** The high nibble and the address field of a word assembled from them. */
  lemma AddrFields(w: word, h: nibble, nnn: addr)
    requires w == h * 0x1000 + nnn
    ensures w / 0x1000 == h && w % 0x1000 == nnn
  {
  }

  lemma DecodeEncodeAddr(ins: Instr)
    requires ins.Jp? || ins.Call? || ins.LdI? || ins.JpV0?
    ensures Decode(Encode(ins)) == ins
  {
    var h: nibble := if ins.Jp? then 0x1 else if ins.Call? then 0x2 else if ins.LdI? then 0xA else 0xB;
    AddrFields(Encode(ins), h, ins.nnn);
  }

  lemma DecodeEncodeByte(ins: Instr)
    requires ins.SeByte? || ins.SneByte? || ins.LdByte? || ins.AddByte? || ins.Rnd?
    ensures Decode(Encode(ins)) == ins
  {
    Fields(Encode(ins), Encode(ins) / 0x1000, ins.x, ins.kk / 0x10, ins.kk % 0x10);
  }

  lemma DecodeEncodeRegs(ins: Instr)
    requires ins.SeReg? || ins.SneReg? || ins.Alu? || ins.Drw?
    ensures Decode(Encode(ins)) == ins
  {
    var n := if ins.Alu? then AluCode(ins.f) else if ins.Drw? then ins.n else 0;
    Fields(Encode(ins), Encode(ins) / 0x1000, ins.x, ins.y, n);
  }

  lemma DecodeEncodeKeys(ins: Instr)
    requires ins.Skp? || ins.Sknp?
    ensures Decode(Encode(ins)) == ins
  {
    Fields(Encode(ins), 0xE, ins.x, if ins.Skp? then 0x9 else 0xA, if ins.Skp? then 0xE else 0x1);
  }

  lemma DecodeEncodeMisc(ins: Instr)
    requires ins.LdVxDt? || ins.LdKey? || ins.LdDtVx? || ins.LdStVx? || ins.AddI?
          || ins.LdFont? || ins.Bcd? || ins.StoreRegs? || ins.LoadRegs?
    ensures Decode(Encode(ins)) == ins
  {
    Fields(Encode(ins), 0xF, ins.x, FCode(ins) / 0x10, FCode(ins) % 0x10);
  }

  /** Decoding undoes encoding, for every instruction form. */
  lemma DecodeEncode(ins: Instr)
    requires Canonical(ins)
    ensures Decode(Encode(ins)) == ins
  {
    if ins.Jp? || ins.Call? || ins.LdI? || ins.JpV0? {
      DecodeEncodeAddr(ins);
    } else if ins.SeByte? || ins.SneByte? || ins.LdByte? || ins.AddByte? || ins.Rnd? {
      DecodeEncodeByte(ins);
    } else if ins.SeReg? || ins.SneReg? || ins.Alu? || ins.Drw? {
      DecodeEncodeRegs(ins);
    } else if ins.Skp? || ins.Sknp? {
      DecodeEncodeKeys(ins);
    } else if !ins.Cls? && !ins.Ret? && !ins.Ignored? {
      DecodeEncodeMisc(ins);
    }
  }

  /** The word an instruction decoded from `op` encodes back to. */
  function Canon(op: word): word
  {
    if op / 0x1000 == 0x5 || op / 0x1000 == 0x9 then op - op % 0x10 else op
  }

  lemma EncodeDecodeAddr(op: word)
    requires op / 0x1000 in {0x1, 0x2, 0xA, 0xB}
    ensures Encode(Decode(op)) == op
  {
    Split(op);
    Fields(op, op / 0x1000, (op / 0x100) % 0x10, (op / 0x10) % 0x10, op % 0x10);
  }

  lemma EncodeDecodeByte(op: word)
    requires op / 0x1000 in {0x3, 0x4, 0x6, 0x7, 0xC}
    ensures Encode(Decode(op)) == op
  {
    Split(op);
    Fields(op, op / 0x1000, (op / 0x100) % 0x10, (op / 0x10) % 0x10, op % 0x10);
  }

  lemma EncodeDecodeRegs(op: word)
    requires op / 0x1000 in {0x5, 0x9, 0xD}
    ensures Encode(Decode(op)) == Canon(op)
  {
    Split(op);
  }

  lemma EncodeDecodeAlu(op: word)
    requires op / 0x1000 == 0x8
    ensures Encode(Decode(op)) == op
  {
    var x: nibble := (op / 0x100) % 0x10;
    var y: nibble := (op / 0x10) % 0x10;
    var n: nibble := op % 0x10;
    assert op == 0x8000 + x * 0x100 + y * 0x10 + n by {
      Split(op);
    }
    match DecodeAlu(n)
    case Some(f) => assert Decode(op) == Alu(f, x, y) && AluCode(f) == n;
    case None => assert Decode(op) == Ignored(op);
  }

  lemma EncodeDecodeKeys(op: word)
    requires op / 0x1000 == 0xE
    ensures Encode(Decode(op)) == op
  {
    var x: nibble := (op / 0x100) % 0x10;
    var kk: byte := op % 0x100;
    assert op == 0xE000 + x * 0x100 + kk by {
      Split(op);
      Fields(op, 0xE, x, (op / 0x10) % 0x10, op % 0x10);
    }
    assert Decode(op) == if kk == 0x9E then Skp(x) else if kk == 0xA1 then Sknp(x) else Ignored(op);
  }

  lemma EncodeDecodeMisc(op: word)
    requires op / 0x1000 == 0xF
    ensures Encode(Decode(op)) == op
  {
    var x: nibble := (op / 0x100) % 0x10;
    var kk: byte := op % 0x100;
    assert op == 0xF000 + x * 0x100 + kk by {
      Split(op);
      Fields(op, 0xF, x, (op / 0x10) % 0x10, op % 0x10);
    }
    var ins := DecodeF(x, kk, op);
    assert Decode(op) == ins;
    if !ins.Ignored? {
      assert ins.x == x && FCode(ins) == kk;
    }
  }

  /**
   * Encoding undoes decoding, except that 5xy_ and 9xy_ forget their low nibble:
   * every word is the canonical word of its decoded form with that nibble added.
   */
  lemma EncodeDecode(op: word)
    ensures Encode(Decode(op)) == Canon(op)
    ensures Canon(op) == op || op / 0x1000 == 0x5 || op / 0x1000 == 0x9
  {
    var h := op / 0x1000;
    if h in {0x1, 0x2, 0xA, 0xB} {
      EncodeDecodeAddr(op);
    } else if h in {0x3, 0x4, 0x6, 0x7, 0xC} {
      EncodeDecodeByte(op);
    } else if h in {0x5, 0x9, 0xD} {
      EncodeDecodeRegs(op);
    } else if h == 0x8 {
      EncodeDecodeAlu(op);
    } else if h == 0xE {
      EncodeDecodeKeys(op);
    } else if h == 0xF {
      EncodeDecodeMisc(op);
    }
  }
}
