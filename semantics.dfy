/**
 * The meaning of every CHIP-8 instruction, of one fetch-execute step and of
 * one frame of the scheduler (scripts/cpu.mjs), as functions on a value that
 * holds the whole machine state: the CPU's memory and registers together
 * with the parts of the display and the keypad the opcodes touch. The CPU
 * class in cpu.dfy is proved to update its fields exactly as these functions
 * say.
 */
module Semantics {
  import opened Bytes
  import opened Opcodes
  import Display
  import Keypad

  const MemorySize: int := 4096
  const ProgramStart: int := 0x200

  /** The hexadecimal digit glyphs 0..F, five rows of four pixels each. */
  const FONT: seq<byte> := [
    0xF0, 0x90, 0x90, 0x90, 0xF0,  // 0
    0x20, 0x60, 0x20, 0x20, 0x70,  // 1
    0xF0, 0x10, 0xF0, 0x80, 0xF0,  // 2
    0xF0, 0x10, 0xF0, 0x10, 0xF0,  // 3
    0x90, 0x90, 0xF0, 0x10, 0x10,  // 4
    0xF0, 0x80, 0xF0, 0x10, 0xF0,  // 5
    0xF0, 0x80, 0xF0, 0x90, 0xF0,  // 6
    0xF0, 0x10, 0x20, 0x40, 0x40,  // 7
    0xF0, 0x90, 0xF0, 0x90, 0xF0,  // 8
    0xF0, 0x90, 0xF0, 0x10, 0xF0,  // 9
    0xF0, 0x90, 0xF0, 0x90, 0x90,  // A
    0xE0, 0x90, 0xE0, 0x90, 0xE0,  // B
    0xF0, 0x80, 0x80, 0x80, 0xF0,  // C
    0xE0, 0x90, 0x90, 0x90, 0xE0,  // D
    0xF0, 0x80, 0xF0, 0x80, 0xF0,  // E
    0xF0, 0x80, 0xF0, 0x80, 0x80   // F
  ]

  /** What Cxkk draws: `Math.floor(Math.random() * 0xff)` lies in 0..254. */
  type RandomByte = r: int | 0 <= r < 0xFF

  /**
   * The machine state. `pcUndefined` records that RET popped an empty stack:
   * the source's `pc` is then `undefined`, every later fetch reads the word
   * 0x0000 and no instruction changes anything again. `display` is the set of
   * lit cells, `keys` the keypad's pressed flags and `waiter` the keypad's
   * one-shot slot.
   */
  datatype Machine = Machine(
    mem: seq<byte>,
    v: seq<byte>,
    i: nat,
    pc: nat,
    pcUndefined: bool,
    stack: seq<nat>,
    delay: nat,
    sound: nat,
    paused: bool,
    display: set<int>,
    keys: seq<bool>,
    waiter: Option<Keypad.Callback>)

  predicate WellFormed(m: Machine)
  {
    |m.mem| == MemorySize && |m.v| == 16 && |m.keys| == 16 && m.delay < 256 && m.sound < 256
  }

  /** The state the constructor builds, beside a given display and keypad. */
  function PowerOn(display: set<int>, keys: seq<bool>, waiter: Option<Keypad.Callback>): (m: Machine)
    requires |keys| == 16
    ensures WellFormed(m) && m.pc == ProgramStart && m.stack == [] && !m.paused
  {
    Machine(seq(MemorySize, _ => 0), seq(16, _ => 0), 0, ProgramStart, false, [], 0, 0, false, display, keys, waiter)
  }

  // ---------------------------------------------------------------------------
  // Copying bytes into memory: the two loaders and Fx55
  // ---------------------------------------------------------------------------

  /**
   * Memory after the first k bytes of `data` have been written, in order, to
   * base, base + 1, ...; a write past the end of memory is dropped.
   */
  function CopyIn(mem: seq<byte>, base: int, data: seq<byte>, k: nat): (r: seq<byte>)
    requires k <= |data|
    ensures |r| == |mem|
  {
    if k == 0 then mem else Store(CopyIn(mem, base, data, k - 1), base + k - 1, data[k - 1])
  }

  /** The closed form of CopyIn: cell a holds data[a - base] inside the copied window and is untouched outside. */
  lemma {:induction false} CopyInAt(mem: seq<byte>, base: int, data: seq<byte>, k: nat, a: int)
    requires k <= |data| && 0 <= a < |mem|
    ensures CopyIn(mem, base, data, k)[a] == if base <= a < base + k then data[a - base] else mem[a]
  {
    if k > 0 {
      CopyInAt(mem, base, data, k - 1, a);
    }
  }

  /** loadSpritesIntoMemory: the font occupies 0x000..0x04F and every other cell is untouched. */
  lemma {:induction false} FontInPlace(mem: seq<byte>)
    requires |mem| == MemorySize
    ensures CopyIn(mem, 0, FONT, |FONT|)[..|FONT|] == FONT
    ensures CopyIn(mem, 0, FONT, |FONT|)[|FONT|..] == mem[|FONT|..]
  {
    forall a | 0 <= a < MemorySize
      ensures CopyIn(mem, 0, FONT, |FONT|)[a] == if a < |FONT| then FONT[a] else mem[a]
    {
      CopyInAt(mem, 0, FONT, |FONT|, a);
    }
  }

  /** loadPorgramIntoMemory: a program that fits lies at 0x200.. in order. */
  lemma {:induction false} ProgramInPlace(mem: seq<byte>, program: seq<byte>)
    requires |mem| == MemorySize && ProgramStart + |program| <= MemorySize
    ensures CopyIn(mem, ProgramStart, program, |program|)[ProgramStart..ProgramStart + |program|] == program
  {
    forall j | 0 <= j < |program|
      ensures CopyIn(mem, ProgramStart, program, |program|)[ProgramStart + j] == program[j]
    {
      CopyInAt(mem, ProgramStart, program, |program|, ProgramStart + j);
    }
  }

  /** loadPorgramIntoMemory leaves the font area below 0x200, and every cell after the program, as they were. */
  lemma {:induction false} ProgramKeepsRest(mem: seq<byte>, program: seq<byte>)
    requires |mem| == MemorySize
    ensures CopyIn(mem, ProgramStart, program, |program|)[..ProgramStart] == mem[..ProgramStart]
    ensures ProgramStart + |program| <= MemorySize ==>
      CopyIn(mem, ProgramStart, program, |program|)[ProgramStart + |program|..] == mem[ProgramStart + |program|..]
  {
    var r := CopyIn(mem, ProgramStart, program, |program|);
    forall a | 0 <= a < MemorySize && !(ProgramStart <= a < ProgramStart + |program|)
      ensures r[a] == mem[a]
    {
      CopyInAt(mem, ProgramStart, program, |program|, a);
    }
  }

  /** Bytes of a program too long for memory are dropped: the first 0xE00 bytes are all that is kept. */
  lemma {:induction false} OversizedProgramTruncated(mem: seq<byte>, program: seq<byte>)
    requires |mem| == MemorySize && ProgramStart + |program| > MemorySize
    ensures CopyIn(mem, ProgramStart, program, |program|)[ProgramStart..] == program[..MemorySize - ProgramStart]
  {
    forall a | ProgramStart <= a < MemorySize
      ensures CopyIn(mem, ProgramStart, program, |program|)[a] == program[a - ProgramStart]
    {
      CopyInAt(mem, ProgramStart, program, |program|, a);
    }
  }

  /** Registers after V0..V(k-1) have been read, in order, from memory at i, i + 1, ... */
  function LoadUpTo(v: seq<byte>, mem: seq<byte>, i: int, k: nat): (r: seq<byte>)
    requires k <= |v|
    ensures |r| == |v|
    ensures forall j :: k <= j < |v| ==> r[j] == v[j]
  {
    if k == 0 then v else LoadUpTo(v, mem, i, k - 1)[k - 1 := Load(mem, i + k - 1)]
  }

  /** The closed form of LoadUpTo: register r holds memory[i + r] when it was read, and is untouched otherwise. */
  lemma {:induction false} LoadUpToAt(v: seq<byte>, mem: seq<byte>, i: int, k: nat, r: nat)
    requires k <= |v| && r < |v|
    ensures LoadUpTo(v, mem, i, k)[r] == if r < k then Load(mem, i + r) else v[r]
  {
    if k > 0 {
      LoadUpToAt(v, mem, i, k - 1, r);
    }
  }

  /** Fx55 then Fx65 at the same I gives back V0..Vx, whatever the registers held in between. */
  lemma StoreThenLoadRegisters(mem: seq<byte>, i: nat, v: seq<byte>, between: seq<byte>, x: nibble, r: nibble)
    requires |mem| == MemorySize && |v| == 16 && |between| == 16 && i + x < MemorySize
    ensures LoadUpTo(between, CopyIn(mem, i, v, x + 1), i, x + 1)[r] == if r <= x then v[r] else between[r]
  {
    LoadUpToAt(between, CopyIn(mem, i, v, x + 1), i, x + 1, r);
    if r <= x {
      CopyInAt(mem, i, v, x + 1, i + r);
    }
  }

  // ---------------------------------------------------------------------------
  // Fx33
  // ---------------------------------------------------------------------------

  /** Fx33 as documented: hundreds, tens and ones of b go to I, I + 1 and I + 2. */
  function StoreBcd(mem: seq<byte>, i: int, b: byte): seq<byte>
  {
    Store(Store(Store(mem, i, b / 100), i + 1, (b % 100) / 10), i + 2, b % 10)
  }

  /** Fx33 as the source writes it: all three digits go to I, one over the other. */
  function StoreBcdAsWritten(mem: seq<byte>, i: int, b: byte): seq<byte>
  {
    Store(Store(Store(mem, i, b / 100), i, (b % 100) / 10), i, b % 10)
  }

  /** The three cells Fx33 writes are decimal digits that spell b, and no other cell changes. */
  lemma BcdDigits(mem: seq<byte>, i: nat, b: byte)
    requires i + 2 < |mem|
    ensures var r := StoreBcd(mem, i, b);
      && |r| == |mem|
      && r[i] < 10 && r[i + 1] < 10 && r[i + 2] < 10
      && r[i] * 100 + r[i + 1] * 10 + r[i + 2] == b
      && forall a :: 0 <= a < |mem| && !(i <= a <= i + 2) ==> r[a] == mem[a]
  {
  }

  /** As written, Fx33 leaves only the ones digit, at I, and never touches I + 1 or I + 2. */
  lemma BcdAsWrittenKeepsOnlyOnes(mem: seq<byte>, i: int, b: byte)
    ensures StoreBcdAsWritten(mem, i, b) == Store(mem, i, b % 10)
  {
  }

  /** For Vx = 254 and I = 0x200 in zeroed memory, the digits 2, 5, 4 are intended but 4, 0, 0 result. */
  lemma BcdAsWrittenCounterexample()
    ensures var zero := seq(MemorySize, _ => 0);
      && StoreBcd(zero, 0x200, 254)[0x200..0x203] == [2, 5, 4]
      && StoreBcdAsWritten(zero, 0x200, 254)[0x200..0x203] == [4, 0, 0]
  {
    var zero: seq<byte> := seq(MemorySize, _ => 0);
    BcdAsWrittenKeepsOnlyOnes(zero, 0x200, 254);
    assert StoreBcd(zero, 0x200, 254)[0x200..0x203] == [2, 5, 4];
  }

  // ---------------------------------------------------------------------------
  // The 8xyN group
  // ---------------------------------------------------------------------------

  /**
   * The registers after 8xyN. Each case performs the source's writes in its
   * order and reads each operand after the writes before it, which matters
   * when x or y is VF.
   */
  function Arith(v: seq<byte>, f: AluOp, x: nibble, y: nibble): (r: seq<byte>)
    requires |v| == 16
    ensures |r| == 16
    ensures forall k: nibble :: k != x && k != VF ==> r[k] == v[k]
  {
    match f
    case Mov => v[x := v[y]]
    case Or => v[x := Or8(v[x], v[y])]
    case And => v[x := And8(v[x], v[y])]
    case Xor => v[x := Xor8(v[x], v[y])]
    case AddCarry =>
      var sum := v[x] as int + v[y];
      v[x := sum % 256][VF := if sum > 0xFF then 1 else 0][x := sum % 256]
    case Sub =>
      var v1 := v[VF := 0];
      var v2 := if v1[x] > v1[y] then v1[VF := 1] else v1;
      v2[x := (v2[x] as int - v2[y]) % 256]
    case Shr =>
      var v1 := v[VF := And8(v[x], 0x1)];
      v1[x := v1[x] / 2]
    case SubN =>
      var v1 := v[VF := 0];
      var v2 := if v1[y] > v1[x] then v1[VF := 1] else v1;
      v2[x := (v2[y] as int - v2[x]) % 256]
    case Shl =>
      var v1 := v[VF := And8(v[x], 0x80)];
      v1[x := (v1[x] as int * 2) % 256]
  }

  /** 8xy4: VF is the carry of the unmasked sum and Vx keeps the sum modulo 256. */
  lemma AddCarrySemantics(v: seq<byte>, x: nibble, y: nibble)
    requires |v| == 16 && x != VF
    ensures Arith(v, AddCarry, x, y)[x] == (v[x] as int + v[y]) % 256
    ensures Arith(v, AddCarry, x, y)[VF] == if v[x] as int + v[y] > 255 then 1 else 0
    ensures forall r: nibble :: r != x && r != VF ==> Arith(v, AddCarry, x, y)[r] == v[r]
  {
  }

  /** 8xy5: VF = 1 exactly when Vx > Vy, judged before the subtraction; Vx = Vx - Vy modulo 256. */
  lemma SubSemantics(v: seq<byte>, x: nibble, y: nibble)
    requires |v| == 16 && x != VF && y != VF
    ensures Arith(v, Sub, x, y)[x] == (v[x] as int - v[y]) % 256
    ensures Arith(v, Sub, x, y)[VF] == if v[x] > v[y] then 1 else 0
    ensures forall r: nibble :: r != x && r != VF ==> Arith(v, Sub, x, y)[r] == v[r]
  {
  }

  /** 8xy7: VF = 1 exactly when Vy > Vx; Vx = Vy - Vx modulo 256. */
  lemma SubNSemantics(v: seq<byte>, x: nibble, y: nibble)
    requires |v| == 16 && x != VF && y != VF
    ensures Arith(v, SubN, x, y)[x] == (v[y] as int - v[x]) % 256
    ensures Arith(v, SubN, x, y)[VF] == if v[y] > v[x] then 1 else 0
    ensures forall r: nibble :: r != x && r != VF ==> Arith(v, SubN, x, y)[r] == v[r]
  {
  }

  /** 8xy6: VF is the bit shifted out and Vx is halved. */
  lemma ShrSemantics(v: seq<byte>, x: nibble, y: nibble)
    requires |v| == 16 && x != VF
    ensures Arith(v, Shr, x, y)[x] == v[x] / 2
    ensures Arith(v, Shr, x, y)[VF] == v[x] % 2
    ensures Arith(v, Shr, x, y)[x] * 2 + Arith(v, Shr, x, y)[VF] == v[x]
    ensures forall r: nibble :: r != x && r != VF ==> Arith(v, Shr, x, y)[r] == v[r]
  {
    AndLowBit(v[x]);
  }

  /** 8xyE: VF is `Vx & 0x80`, so 0x80 (not 1) when the top bit was set; Vx is doubled modulo 256. */
  lemma ShlSemantics(v: seq<byte>, x: nibble, y: nibble)
    requires |v| == 16 && x != VF
    ensures Arith(v, Shl, x, y)[x] == (2 * v[x] as int) % 256
    ensures Arith(v, Shl, x, y)[VF] == if v[x] >= 0x80 then 0x80 else 0
    ensures Arith(v, Shl, x, y)[VF] != 1
    ensures forall r: nibble :: r != x && r != VF ==> Arith(v, Shl, x, y)[r] == v[r]
  {
    AndHighBit(v[x]);
  }

  // ---------------------------------------------------------------------------
  // Dxyn
  // ---------------------------------------------------------------------------

  /** The display and VF while a sprite is being drawn. */
  datatype Pen = Pen(lit: set<int>, vf: byte)

  /** A sprite row after `col` left shifts by one, as the draw loop keeps it. */
  function Shifted(b: byte, col: nat): bv16
    requires col <= 8
  {
    if col == 0 then b as bv16 else Shifted(b, col - 1) << 1
  }

  /** Column `col` of a sprite row: the bit that `col` shifts bring to 0x80. */
  predicate SpriteBit(b: byte, col: nat)
    requires col < 8
  {
    Shifted(b, col) & 0x80 != 0
  }

  /** The value the draw loop reads from register r: VF changes while the loop runs. */
  function LiveReg(m: Machine, vf: byte, r: nibble): byte
    requires |m.v| == 16
  {
    if r == VF then vf else m.v[r]
  }

  /** The cell that pixel (row, col) of the sprite toggles. */
  function SpritePixel(m: Machine, x: nibble, y: nibble, vf: byte, row: nat, col: nat): int
    requires |m.v| == 16
  {
    Display.PixelIndex(LiveReg(m, vf, x) + col, LiveReg(m, vf, y) + row)
  }

  /** Whether pixel k (row k / 8, column k % 8) of the sprite at I is set. */
  predicate PixelSet(m: Machine, k: nat)
  {
    SpriteBit(Load(m.mem, m.i + k / 8), k % 8)
  }

  /**
   * The display and VF after the first k pixels of the sprite, in the loops'
   * order (row by row, column by column), starting from VF = 0. Each set pixel
   * is one `setPixels` call; an erasure sets VF to 1.
   */
  function DrawUpTo(m: Machine, x: nibble, y: nibble, k: nat): (r: Pen)
    requires |m.v| == 16
    ensures r.vf == 0 || r.vf == 1
  {
    if k == 0 then Pen(m.display, 0)
    else
      var s := DrawUpTo(m, x, y, k - 1);
      if !PixelSet(m, k - 1) then s
      else
        var p := SpritePixel(m, x, y, s.vf, (k - 1) / 8, (k - 1) % 8);
        Pen(Display.Toggle(s.lit, p), if p in s.lit then 1 else s.vf)
  }

  /** Pixel 8 * row + col of the sprite is bit `col` of byte I + row. */
  lemma PixelBit(m: Machine, row: nat, col: nat)
    requires col < 8
    ensures PixelSet(m, 8 * row + col) == SpriteBit(Load(m.mem, m.i + row), col)
  {
    var k := 8 * row + col;
    assert k / 8 == row && k % 8 == col;
  }

  /** Drawing pixel (row, col) of the sprite takes the pen one step further. */
  lemma DrawUpToNext(m: Machine, x: nibble, y: nibble, row: nat, col: nat)
    requires |m.v| == 16 && col < 8
    ensures var s := DrawUpTo(m, x, y, 8 * row + col);
      var p := SpritePixel(m, x, y, s.vf, row, col);
      DrawUpTo(m, x, y, 8 * row + col + 1)
        == if PixelSet(m, 8 * row + col)
           then Pen(Display.Toggle(s.lit, p), if p in s.lit then 1 else s.vf)
           else s
  {
    var k := 8 * row + col;
    assert k / 8 == row && k % 8 == col;
  }

  /** Pixel j is drawn and the setPixels call for it reports an erasure. */
  predicate Erases(m: Machine, x: nibble, y: nibble, j: nat)
    requires |m.v| == 16
  {
    PixelSet(m, j) && SpritePixel(m, x, y, DrawUpTo(m, x, y, j).vf, j / 8, j % 8) in DrawUpTo(m, x, y, j).lit
  }

  /** VF after a sprite is 1 exactly when some pixel of the whole sprite was erased, and 0 otherwise. */
  lemma {:induction false} DrawCollision(m: Machine, x: nibble, y: nibble, k: nat)
    requires |m.v| == 16
    ensures DrawUpTo(m, x, y, k).vf == if exists j :: 0 <= j < k && Erases(m, x, y, j) then 1 else 0
  {
    if k > 0 {
      DrawCollision(m, x, y, k - 1);
      if exists j :: 0 <= j < k - 1 && Erases(m, x, y, j) {
        var j :| 0 <= j < k - 1 && Erases(m, x, y, j);
        assert 0 <= j < k && Erases(m, x, y, j);
      } else if Erases(m, x, y, k - 1) {
        assert DrawUpTo(m, x, y, k).vf == 1;
      } else {
        forall j | 0 <= j < k
          ensures !Erases(m, x, y, j)
        {
        }
      }
    }
  }

  /** Dxyn: the display and VF after the whole n-row sprite. */
  function DrawSprite(m: Machine, x: nibble, y: nibble, n: nibble): (r: Machine)
    requires |m.v| == 16
    ensures |r.v| == 16 && (r.v[VF] == 0 || r.v[VF] == 1)
    ensures r == m.(display := r.display, v := r.v)
  {
    var s := DrawUpTo(m, x, y, 8 * n);
    m.(display := s.lit, v := m.v[VF := s.vf])
  }

  /**
   * Dxyn changes only the display and VF, and VF ends as 1 exactly when some
   * pixel of the sprite was erased.
   */
  lemma DrawSpriteEffect(m: Machine, x: nibble, y: nibble, n: nibble)
    requires |m.v| == 16
    ensures var r := DrawSprite(m, x, y, n);
      && r.mem == m.mem && r.i == m.i && r.pc == m.pc && r.stack == m.stack
      && (forall q: nibble :: q != VF ==> r.v[q] == m.v[q])
      && (r.v[VF] == 1 <==> exists j :: 0 <= j < 8 * n && Erases(m, x, y, j))
      && (r.v[VF] == 0 <==> !exists j :: 0 <= j < 8 * n && Erases(m, x, y, j))
  {
    DrawCollision(m, x, y, 8 * n);
  }

  // ---------------------------------------------------------------------------
  // Instructions
  // ---------------------------------------------------------------------------

  /** Whether the condition of a skip instruction holds. */
  predicate SkipTaken(m: Machine, ins: Instr)
    requires |m.v| == 16 && |m.keys| == 16
    requires ins.SeByte? || ins.SneByte? || ins.SeReg? || ins.SneReg? || ins.Skp? || ins.Sknp?
  {
    match ins
    case SeByte(x, kk) => m.v[x] == kk
    case SneByte(x, kk) => m.v[x] != kk
    case SeReg(x, y) => m.v[x] == m.v[y]
    case SneReg(x, y) => m.v[x] != m.v[y]
    case Skp(x) => Keypad.IsPressed(m.keys, m.v[x])
    case Sknp(x) => !Keypad.IsPressed(m.keys, m.v[x])
  }

  /** One instruction: PC first moves past it, then the instruction takes effect. */
  function Exec(m: Machine, ins: Instr, rand: RandomByte): (r: Machine)
    requires WellFormed(m) && !m.pcUndefined
    ensures WellFormed(r)
    ensures r.keys == m.keys
  {
    Effect(m.(pc := m.pc + 2), ins, rand)
  }

  // The instructions fall into groups by the part of the state they change.

  predicate IsFlow(ins: Instr) { ins.Ret? || ins.Jp? || ins.Call? || ins.JpV0? }

  predicate IsSkip(ins: Instr) { ins.SeByte? || ins.SneByte? || ins.SeReg? || ins.SneReg? || ins.Skp? || ins.Sknp? }

  predicate IsRegister(ins: Instr) { ins.LdByte? || ins.AddByte? || ins.Alu? || ins.Rnd? || ins.LdVxDt? }

  predicate IsIndexOrTimer(ins: Instr) { ins.LdI? || ins.LdDtVx? || ins.LdStVx? || ins.AddI? || ins.LdFont? }

  predicate IsDisplay(ins: Instr) { ins.Cls? || ins.Drw? }

  predicate IsMemory(ins: Instr) { ins.Bcd? || ins.StoreRegs? || ins.LoadRegs? }

  /**
   * What an instruction does once PC has moved past it. An Ignored sub-code
   * does nothing.
   */
  function Effect(m1: Machine, ins: Instr, rand: RandomByte): (r: Machine)
    requires WellFormed(m1) && !m1.pcUndefined
    ensures WellFormed(r)
    ensures r.keys == m1.keys
  {
    if IsFlow(ins) then FlowEffect(m1, ins)
    else if IsSkip(ins) then SkipEffect(m1, ins)
    else if IsRegister(ins) then RegisterEffect(m1, ins, rand)
    else if IsIndexOrTimer(ins) then IndexOrTimerEffect(m1, ins)
    else if IsDisplay(ins) then DisplayEffect(m1, ins)
    else if IsMemory(ins) then MemoryEffect(m1, ins)
    else if ins.LdKey? then m1.(paused := true, waiter := Some(Keypad.StoreKeyAndResume(ins.x)))
    else m1
  }

  /** 00EE, 1nnn, 2nnn, Bnnn: RET pops PC (an empty stack leaves PC undefined), CALL pushes it. */
  function FlowEffect(m1: Machine, ins: Instr): (r: Machine)
    requires WellFormed(m1) && IsFlow(ins)
    ensures WellFormed(r)
    ensures r == m1.(pc := r.pc, pcUndefined := r.pcUndefined, stack := r.stack)
    ensures |r.stack| == if ins.Call? then |m1.stack| + 1 else if ins.Ret? && |m1.stack| > 0 then |m1.stack| - 1 else |m1.stack|
  {
    match ins
    case Ret =>
      if |m1.stack| == 0 then m1.(pcUndefined := true)
      else m1.(pc := m1.stack[|m1.stack| - 1], stack := m1.stack[..|m1.stack| - 1])
    case Jp(nnn) => m1.(pc := nnn)
    case Call(nnn) => m1.(stack := m1.stack + [m1.pc], pc := nnn)
    case JpV0(nnn) => m1.(pc := nnn + m1.v[0])
  }

  /** 3xkk, 4xkk, 5xy0, 9xy0, Ex9E, ExA1: PC moves past one more instruction when the condition holds. */
  function SkipEffect(m1: Machine, ins: Instr): (r: Machine)
    requires WellFormed(m1) && IsSkip(ins)
    ensures WellFormed(r)
    ensures r == m1.(pc := r.pc) && (r.pc == m1.pc || r.pc == m1.pc + 2)
  {
    if SkipTaken(m1, ins) then m1.(pc := m1.pc + 2) else m1
  }

  /** 6xkk, 7xkk, 8xyN, Cxkk, Fx07: one register written, or the 8xyN group's writes. */
  function RegisterEffect(m1: Machine, ins: Instr, rand: RandomByte): (r: Machine)
    requires WellFormed(m1) && IsRegister(ins)
    ensures WellFormed(r)
    ensures r == m1.(v := r.v)
    ensures forall k: nibble :: k != ins.x && k != VF ==> r.v[k] == m1.v[k]
  {
    match ins
    case LdByte(x, kk) => m1.(v := m1.v[x := kk])
    case AddByte(x, kk) => m1.(v := m1.v[x := (m1.v[x] as int + kk) % 256])
    case Alu(f, x, y) => m1.(v := Arith(m1.v, f, x, y))
    case Rnd(x, kk) => m1.(v := m1.v[x := And8(rand, kk)])
    case LdVxDt(x) => m1.(v := m1.v[x := m1.delay])
  }

  /** Annn, Fx15, Fx18, Fx1E, Fx29: I or a timer set. I + Vx is not masked. */
  function IndexOrTimerEffect(m1: Machine, ins: Instr): (r: Machine)
    requires WellFormed(m1) && IsIndexOrTimer(ins)
    ensures WellFormed(r)
    ensures r == m1.(i := r.i, delay := r.delay, sound := r.sound)
  {
    match ins
    case LdI(nnn) => m1.(i := nnn)
    case LdDtVx(x) => m1.(delay := m1.v[x])
    case LdStVx(x) => m1.(sound := m1.v[x])
    case AddI(x) => m1.(i := m1.i + m1.v[x])
    case LdFont(x) => m1.(i := m1.v[x] as int * 5)
  }

  /** 00E0 and Dxyn. */
  function DisplayEffect(m1: Machine, ins: Instr): (r: Machine)
    requires WellFormed(m1) && IsDisplay(ins)
    ensures WellFormed(r)
    ensures r == m1.(display := r.display, v := r.v)
    ensures forall k: nibble :: k != VF ==> r.v[k] == m1.v[k]
  {
    match ins
    case Cls => m1.(display := {})
    case Drw(x, y, n) => DrawSprite(m1, x, y, n)
  }

  /** Fx33, Fx55, Fx65. */
  function MemoryEffect(m1: Machine, ins: Instr): (r: Machine)
    requires WellFormed(m1) && IsMemory(ins)
    ensures WellFormed(r)
    ensures r == m1.(mem := r.mem, v := r.v)
    ensures ins.LoadRegs? ==> r.mem == m1.mem
    ensures !ins.LoadRegs? ==> r.v == m1.v
  {
    match ins
    case Bcd(x) => m1.(mem := StoreBcd(m1.mem, m1.i, m1.v[x]))
    case StoreRegs(x) => m1.(mem := CopyIn(m1.mem, m1.i, m1.v, x + 1))
    case LoadRegs(x) => m1.(v := LoadUpTo(m1.v, m1.mem, m1.i, x + 1))
  }

  /** Every instruction moves PC past itself before anything else; only the ones listed change PC again. */
  lemma AdvancesPastInstruction(m: Machine, ins: Instr, rand: RandomByte)
    requires WellFormed(m) && !m.pcUndefined
    requires !IsFlow(ins) && !IsSkip(ins)
    ensures Exec(m, ins, rand).pc == m.pc + 2
    ensures !Exec(m, ins, rand).pcUndefined
  {
  }

  /** A skip adds exactly 2 more to PC when its condition holds, and changes nothing else. */
  lemma SkipSemantics(m: Machine, ins: Instr, rand: RandomByte)
    requires WellFormed(m) && !m.pcUndefined
    requires ins.SeByte? || ins.SneByte? || ins.SeReg? || ins.SneReg? || ins.Skp? || ins.Sknp?
    ensures Exec(m, ins, rand) == m.(pc := m.pc + (if SkipTaken(m, ins) then 4 else 2))
  {
  }

  /** 1nnn sets PC to nnn and leaves the stack alone. */
  lemma JumpSemantics(m: Machine, nnn: addr, rand: RandomByte)
    requires WellFormed(m) && !m.pcUndefined
    ensures Exec(m, Jp(nnn), rand) == m.(pc := nnn)
  {
  }

  /**
   * A CALL followed, once the subroutine has left the stack as it found it, by
   * a RET resumes at the address after the CALL with the caller's stack.
   */
  lemma CallThenReturn(m: Machine, nnn: addr, body: Machine, r1: RandomByte, r2: RandomByte)
    requires WellFormed(m) && !m.pcUndefined && WellFormed(body) && !body.pcUndefined
    requires body.stack == Exec(m, Call(nnn), r1).stack
    ensures Exec(m, Call(nnn), r1).pc == nnn
    ensures Exec(m, Call(nnn), r1).stack == m.stack + [m.pc + 2]
    ensures Exec(body, Ret, r2).pc == m.pc + 2
    ensures Exec(body, Ret, r2).stack == m.stack
    ensures !Exec(body, Ret, r2).pcUndefined
  {
  }

  /** RET with nothing to return to leaves PC undefined. */
  lemma ReturnOnEmptyStack(m: Machine, rand: RandomByte)
    requires WellFormed(m) && !m.pcUndefined && m.stack == []
    ensures Exec(m, Ret, rand).pcUndefined
  {
  }

  /** 7xkk adds modulo 256 and, unlike 8xy4, leaves VF alone (unless x is F). */
  lemma AddByteSemantics(m: Machine, x: nibble, kk: byte, rand: RandomByte)
    requires WellFormed(m) && !m.pcUndefined
    ensures Exec(m, AddByte(x, kk), rand).v[x] == (m.v[x] + kk) % 256
    ensures forall r: nibble :: r != x ==> Exec(m, AddByte(x, kk), rand).v[r] == m.v[r]
  {
  }

  /** Fx55 then Fx65 from the same I restores V0..Vx, and neither moves I. */
  lemma StoreLoadRoundTrip(m: Machine, x: nibble, between: seq<byte>, r1: RandomByte, r2: RandomByte)
    requires WellFormed(m) && !m.pcUndefined && |between| == 16 && m.i + x < MemorySize
    ensures var stored := Exec(m, StoreRegs(x), r1);
      var loaded := Exec(stored.(v := between), LoadRegs(x), r2);
      && stored.i == m.i && loaded.i == m.i
      && (forall r: nibble :: r <= x ==> loaded.v[r] == m.v[r])
      && (forall r: nibble :: r > x ==> loaded.v[r] == between[r])
  {
    var stored := Exec(m, StoreRegs(x), r1);
    assert stored.mem == CopyIn(m.mem, m.i, m.v, x + 1) && stored.i == m.i;
    var loaded := Exec(stored.(v := between), LoadRegs(x), r2);
    assert loaded.v == LoadUpTo(between, stored.mem, m.i, x + 1) && loaded.i == m.i;
    forall r: nibble
      ensures loaded.v[r] == if r <= x then m.v[r] else between[r]
    {
      StoreThenLoadRegisters(m.mem, m.i, m.v, between, x, r);
    }
  }

  /** Fx29 points I at the five-byte glyph of the low hex digit in Vx. */
  lemma FontGlyph(m: Machine, x: nibble, rand: RandomByte)
    requires WellFormed(m) && !m.pcUndefined && m.v[x] < 16
    requires m.mem[..|FONT|] == FONT
    ensures var r := Exec(m, LdFont(x), rand);
      r.i + 5 <= |FONT| && r.mem[r.i..r.i + 5] == FONT[5 * m.v[x]..5 * m.v[x] + 5]
  {
    var r := Exec(m, LdFont(x), rand);
    assert r.mem[r.i..r.i + 5] == m.mem[..|FONT|][r.i..r.i + 5];
  }

  // ---------------------------------------------------------------------------
  // Fetch, step, frame
  // ---------------------------------------------------------------------------

  /** The big-endian word at PC; a byte past the end of memory reads as 0. */
  function Fetch(mem: seq<byte>, pc: int): (r: word)
    ensures r / 0x100 == Load(mem, pc) && r % 0x100 == Load(mem, pc + 1)
  {
    Load(mem, pc) * 0x100 + Load(mem, pc + 1)
  }

  /** One fetch-execute step. With PC undefined the fetched word is 0x0000, which does nothing. */
  function Step(m: Machine, rand: RandomByte): (r: Machine)
    requires WellFormed(m)
    ensures WellFormed(r)
    ensures r.keys == m.keys
  {
    if m.pcUndefined then m else Exec(m, Decode(Fetch(m.mem, m.pc)), rand)
  }

  /** The steps of one frame, with one random byte each: a step is skipped while the machine is paused. */
  function Run(m: Machine, rands: seq<RandomByte>): (r: Machine)
    requires WellFormed(m)
    ensures WellFormed(r)
    ensures r.keys == m.keys
  {
    if |rands| == 0 then m
    else
      var before := Run(m, rands[..|rands| - 1]);
      if before.paused then before else Step(before, rands[|rands| - 1])
  }

  /** One more random byte runs one more step, unless the machine is paused by then. */
  lemma RunNext(m: Machine, rands: seq<RandomByte>, k: nat)
    requires WellFormed(m) && k < |rands|
    ensures var before := Run(m, rands[..k]);
      Run(m, rands[..k + 1]) == if before.paused then before else Step(before, rands[k])
  {
    assert rands[..k + 1][..k] == rands[..k];
  }

  /** Fetching an instruction's own word at PC executes that instruction. */
  lemma StepFetched(m: Machine, ins: Instr, rand: RandomByte)
    requires WellFormed(m) && !m.pcUndefined && Canonical(ins) && Fetch(m.mem, m.pc) == Encode(ins)
    ensures Step(m, rand) == Exec(m, ins, rand)
  {
    DecodeEncode(ins);
  }

  /** 6xkk fetched at PC loads kk into Vx and moves on; nothing else changes. */
  lemma StepLdByte(m: Machine, x: nibble, kk: byte, rand: RandomByte)
    requires WellFormed(m) && !m.pcUndefined && Fetch(m.mem, m.pc) == 0x6000 + x * 0x100 + kk
    ensures Step(m, rand) == m.(pc := m.pc + 2, v := m.v[x := kk])
  {
    StepFetched(m, LdByte(x, kk), rand);
  }

  /** 8xyN fetched at PC applies the ALU operation to the registers and moves on; nothing else changes. */
  lemma StepAlu(m: Machine, f: AluOp, x: nibble, y: nibble, rand: RandomByte)
    requires WellFormed(m) && !m.pcUndefined && Fetch(m.mem, m.pc) == Encode(Alu(f, x, y))
    ensures Step(m, rand) == m.(pc := m.pc + 2, v := Arith(m.v, f, x, y))
  {
    StepFetched(m, Alu(f, x, y), rand);
  }

  /** The word at PC is its two bytes, high byte first. */
  lemma FetchBytes(mem: seq<byte>, a: nat, hi: byte, lo: byte)
    requires a + 1 < |mem| && mem[a] == hi && mem[a + 1] == lo
    ensures Fetch(mem, a) == hi as int * 0x100 + lo
  {
  }

  /** 8xy4 on a sum below 256: Vx holds the plain sum and VF is cleared. */
  lemma SumWithoutCarry(v: seq<byte>, x: nibble, y: nibble)
    requires |v| == 16 && x != VF && y != VF && x != y && v[x] as int + v[y] < 256
    ensures Arith(v, AddCarry, x, y)[x] == v[x] + v[y]
    ensures Arith(v, AddCarry, x, y)[y] == v[y] && Arith(v, AddCarry, x, y)[VF] == 0
  {
  }

  /** The program 6005 6103 8014 (V0 = 5; V1 = 3; V0 += V1) loaded at 0x200 leaves V0 = 8 and VF = 0 after three steps. */
  lemma AddProgramScenario(m: Machine, r1: RandomByte, r2: RandomByte, r3: RandomByte)
    requires WellFormed(m) && !m.pcUndefined && m.pc == ProgramStart
    requires m.mem[ProgramStart..ProgramStart + 6] == [0x60, 0x05, 0x61, 0x03, 0x80, 0x14]
    ensures var after := Step(Step(Step(m, r1), r2), r3);
      after.v[0] == 8 && after.v[1] == 3 && after.v[VF] == 0 && after.pc == ProgramStart + 6
  {
    assert m.mem[0x200] == 0x60 && m.mem[0x201] == 0x05;
    assert m.mem[0x202] == 0x61 && m.mem[0x203] == 0x03;
    assert m.mem[0x204] == 0x80 && m.mem[0x205] == 0x14;
    var m1 := m.(pc := 0x202, v := m.v[0 := 5]);
    assert Step(m, r1) == m1 by {
      FetchBytes(m.mem, 0x200, 0x60, 0x05);
      StepLdByte(m, 0, 5, r1);
    }
    var m2 := m1.(pc := 0x204, v := m1.v[1 := 3]);
    assert Step(m1, r2) == m2 by {
      FetchBytes(m1.mem, 0x202, 0x61, 0x03);
      StepLdByte(m1, 1, 3, r2);
    }
    var m3 := m2.(pc := 0x206, v := Arith(m2.v, AddCarry, 0, 1));
    assert Step(m2, r3) == m3 by {
      FetchBytes(m2.mem, 0x204, 0x80, 0x14);
      assert Encode(Alu(AddCarry, 0, 1)) == 0x8014;
      StepAlu(m2, AddCarry, 0, 1, r3);
    }
    SumWithoutCarry(m2.v, 0, 1);
  }

  /** `updateTimers`: each timer that is positive goes down by one. */
  function Tick(m: Machine): (r: Machine)
    ensures r == m.(delay := r.delay, sound := r.sound)
    ensures r.delay <= m.delay && (r.delay < m.delay <==> m.delay > 0)
    ensures r.sound <= m.sound && (r.sound < m.sound <==> m.sound > 0)
  {
    m.(delay := if m.delay > 0 then m.delay - 1 else m.delay,
       sound := if m.sound > 0 then m.sound - 1 else m.sound)
  }

  /** One frame: the steps, then the timers, which are left alone while paused. */
  function Frame(m: Machine, rands: seq<RandomByte>): (r: Machine)
    requires WellFormed(m)
    ensures WellFormed(r)
    ensures r.keys == m.keys
  {
    var after := Run(m, rands);
    if after.paused then after else Tick(after)
  }

  /** A timer ticks down by exactly one while positive and stays at 0 once there. */
  lemma TickSemantics(m: Machine)
    ensures Tick(m).delay == if m.delay == 0 then 0 else m.delay - 1
    ensures Tick(m).sound == if m.sound == 0 then 0 else m.sound - 1
    ensures Tick(m).(delay := m.delay, sound := m.sound) == m
  {
  }

  /** While waiting for a key, a frame changes nothing at all: no instruction runs and the timers stand still. */
  lemma {:induction false} PausedFrameIsIdle(m: Machine, rands: seq<RandomByte>)
    requires WellFormed(m) && m.paused
    ensures Run(m, rands) == m
    ensures Frame(m, rands) == m
  {
    if |rands| > 0 {
      PausedFrameIsIdle(m, rands[..|rands| - 1]);
    }
  }

  /** Once PC is undefined, frames only run the timers down. */
  lemma {:induction false} UndefinedPcRunsNothing(m: Machine, rands: seq<RandomByte>)
    requires WellFormed(m) && m.pcUndefined
    ensures Run(m, rands) == m
  {
    if |rands| > 0 {
      UndefinedPcRunsNothing(m, rands[..|rands| - 1]);
    }
  }

  // ---------------------------------------------------------------------------
  // Key events
  // ---------------------------------------------------------------------------

  /** The continuation Fx0A registered: Vx gets the key and execution resumes. */
  function KeyArrived(m: Machine, x: nibble, key: nibble): (r: Machine)
    requires |m.v| == 16
    ensures r == m.(v := r.v, paused := false)
    ensures |r.v| == 16 && r.v[x] == key && forall k: nibble :: k != x ==> r.v[k] == m.v[k]
  {
    m.(v := m.v[x := key], paused := false)
  }

  /** A host key-down: the keypad updates, and a registered continuation runs once. */
  function KeyDown(m: Machine, code: int): (r: Machine)
    requires WellFormed(m)
    ensures WellFormed(r)
    ensures r.waiter.Some? ==> r.waiter == m.waiter
    ensures m.waiter.None? ==> r == m.(keys := r.keys)
  {
    var fired := Keypad.Fire(m.waiter, code);
    var m1 := m.(keys := Keypad.AfterKeyEvent(m.keys, code, true), waiter := if fired.Some? then None else m.waiter);
    match fired
    case None => m1
    case Some((cb, key)) => KeyArrived(m1, cb.register, key)
  }

  /** A host key-up: only the pressed flag changes. */
  function KeyUp(m: Machine, code: int): (r: Machine)
    requires WellFormed(m)
    ensures WellFormed(r)
    ensures r == m.(keys := r.keys)
  {
    m.(keys := Keypad.AfterKeyEvent(m.keys, code, false))
  }

  /**
   * Fx0A pauses the machine; the first key-down of a nonzero mapped key stores
   * that key in Vx, resumes, and empties the slot, so a second key-down leaves
   * the registers and the run state alone.
   */
  lemma WaitForKey(m: Machine, x: nibble, rand: RandomByte, code: int, later: int)
    requires WellFormed(m) && !m.pcUndefined
    requires code in Keypad.KEYMAP && Keypad.KEYMAP[code] != 0
    ensures Exec(m, LdKey(x), rand).paused
    ensures var resumed := KeyDown(Exec(m, LdKey(x), rand), code);
      && resumed.v[x] == Keypad.KEYMAP[code] && !resumed.paused && resumed.waiter == None
      && KeyDown(resumed, later).v == resumed.v && !KeyDown(resumed, later).paused
  {
  }

  /** Key 0x0 and unmapped codes do not end a wait: the machine stays paused with the slot still set. */
  lemma WaitIgnoresKeyZero(m: Machine, code: int)
    requires WellFormed(m) && m.paused && m.waiter.Some?
    requires code !in Keypad.KEYMAP || Keypad.KEYMAP[code] == 0
    ensures KeyDown(m, code).paused && KeyDown(m, code).waiter == m.waiter && KeyDown(m, code).v == m.v
  {
  }
}
