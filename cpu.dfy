/**
 * The interpreter object (scripts/cpu.mjs): memory and registers, the call
 * stack, the two timers, the run/pause flag, and the methods that load the
 * font and a program, execute one instruction and run one frame. Each method
 * is proved to leave the machine in exactly the state the functions of the
 * Semantics module describe.
 *
 * The random byte of Cxkk and the sound output are at the boundary: a frame
 * receives its random bytes as a parameter and reports whether the tone is on
 * instead of driving a speaker.
 */
module Cpu {
  import opened Bytes
  import opened Opcodes
  import opened Semantics
  import Display
  import Keypad

  class CPU {
    const renderer: Display.Renderer
    const keyboard: Keypad.Keyboard
    const memory: array<byte>
    const v: array<byte>
    var i: nat
    var delayTimer: nat
    var soundTimer: nat
    var pc: nat
    /** Set when RET popped an empty stack, making the source's pc `undefined`. */
    var pcUndefined: bool
    var stack: seq<nat>
    var paused: bool
    /** Instructions per frame. */
    const speed: nat

    ghost predicate Valid()
      reads this, keyboard
    {
      && memory.Length == MemorySize
      && v.Length == 16
      && memory != v
      && keyboard.Valid()
      && delayTimer < 256
      && soundTimer < 256
    }

    /** The whole machine as a value. */
    ghost function State(): Machine
      reads this, memory, v, renderer, keyboard
    {
      Machine(memory[..], v[..], i, pc, pcUndefined, stack, delayTimer, soundTimer, paused,
              renderer.display, keyboard.keyPressed, keyboard.onNextKeyPress)
    }

    constructor (renderer: Display.Renderer, keyboard: Keypad.Keyboard)
      requires keyboard.Valid()
      ensures Valid()
      ensures this.renderer == renderer && this.keyboard == keyboard && fresh(memory) && fresh(v)
      ensures State() == PowerOn(renderer.display, keyboard.keyPressed, keyboard.onNextKeyPress)
      ensures speed == 10
    {
      this.renderer := renderer;
      this.keyboard := keyboard;
      memory := new byte[MemorySize](_ => 0);
      v := new byte[16](_ => 0);
      i := 0;
      delayTimer := 0;
      soundTimer := 0;
      pc := ProgramStart;
      pcUndefined := false;
      stack := [];
      paused := false;
      speed := 10;
    }

    /** A store into the Uint8Array memory: dropped when the address is out of range. */
    method Poke(a: int, b: byte)
      requires memory.Length == MemorySize
      modifies memory
      ensures memory[..] == Store(old(memory[..]), a, b)
    {
      if 0 <= a < memory.Length {
        memory[a] := b;
      }
    }

    /** A read of the Uint8Array memory: 0 when the address is out of range. */
    method Peek(a: int) returns (b: byte)
      ensures b == Load(memory[..], a)
    {
      b := if 0 <= a < memory.Length then memory[a] else 0;
    }

    /** Copies the hexadecimal font to the start of memory. */
    method LoadSpritesIntoMemory()
      requires Valid()
      modifies memory
      ensures memory[..] == CopyIn(old(memory[..]), 0, FONT, |FONT|)
    {
      ghost var mem0 := memory[..];
      for k := 0 to |FONT|
        invariant memory[..] == CopyIn(mem0, 0, FONT, k)
      {
        memory[k] := FONT[k];
      }
    }

    /** Copies a program to memory from 0x200 on; bytes that would land past the end are dropped. */
    method LoadProgramIntoMemory(program: seq<byte>)
      requires Valid()
      modifies memory
      ensures memory[..] == CopyIn(old(memory[..]), ProgramStart, program, |program|)
    {
      ghost var mem0 := memory[..];
      for loc := 0 to |program|
        invariant memory[..] == CopyIn(mem0, ProgramStart, program, loc)
      {
        Poke(ProgramStart + loc, program[loc]);
      }
    }

    /** One frame: up to `speed` instructions, then the timers unless paused, then the tone. */
    method Cycle(rands: seq<RandomByte>) returns (tone: bool)
      requires Valid() && |rands| == speed
      modifies this, memory, v, renderer, keyboard
      ensures Valid()
      ensures State() == Frame(old(State()), rands)
      ensures tone <==> soundTimer > 0
    {
      ghost var m0 := State();
      for k := 0 to speed
        invariant Valid()
        invariant State() == Run(m0, rands[..k])
      {
        RunNext(m0, rands, k);
        if !paused {
          FetchAndExecute(rands[k]);
        }
      }
      assert rands[..speed] == rands;
      if !paused {
        UpdateTimers();
      }
      tone := PlaySound();
    }

    /** One pass of the frame loop when not paused: fetch the big-endian word at PC and execute it. */
    method FetchAndExecute(rand: RandomByte)
      requires Valid()
      modifies this, memory, v, renderer, keyboard
      ensures Valid()
      ensures State() == Step(old(State()), rand)
    {
      if !pcUndefined {
        ghost var m := State();
        var hi := Peek(pc);
        var lo := Peek(pc + 1);
        // `hi << 8 | lo`: lo < 0x100, so the OR is an addition
        var opcode := hi as int * 0x100 + lo;
        assert opcode == Fetch(m.mem, m.pc);
        Execute(opcode, rand);
      }
    }

    /** Each timer that is positive goes down by one. */
    method UpdateTimers()
      requires Valid()
      modifies this
      ensures Valid()
      ensures State() == Tick(old(State()))
    {
      if delayTimer > 0 {
        delayTimer := delayTimer - 1;
      }
      if soundTimer > 0 {
        soundTimer := soundTimer - 1;
      }
    }

    /** The speaker sounds exactly while the sound timer is positive. */
    method PlaySound() returns (tone: bool)
      ensures tone <==> soundTimer > 0
    {
      if soundTimer > 0 {
        tone := true;
      } else {
        tone := false;
      }
    }

    /**
     * Executes one opcode: PC moves past it, then the decoded instruction
     * takes effect on the registers, memory, display and keypad slot.
     */
    method Execute(opcode: word, rand: RandomByte)
      requires Valid() && !pcUndefined
      modifies this, memory, v, renderer, keyboard
      ensures Valid()
      ensures State() == Exec(old(State()), Decode(opcode), rand)
    {
      pc := pc + 2;
      var ins := Decode(opcode);
      ghost var m1 := State();
      assert Exec(old(State()), ins, rand) == Effect(m1, ins, rand);
      if IsFlow(ins) {
        ExecuteFlow(ins);
      } else if IsSkip(ins) {
        ExecuteSkip(ins);
      } else if IsRegister(ins) {
        ExecuteRegister(ins, rand);
      } else if IsIndexOrTimer(ins) {
        ExecuteIndexOrTimer(ins);
      } else if IsDisplay(ins) {
        ExecuteDisplay(ins);
      } else if IsMemory(ins) {
        ExecuteMemory(ins);
      } else if ins.LdKey? {
        ExecuteKeyWait(ins.x);
      }
    }

    /** Fx0A: execution pauses and the keypad's slot receives the continuation for Vx. */
    method ExecuteKeyWait(x: nibble)
      requires Valid()
      modifies this, keyboard
      ensures Valid()
      ensures State() == old(State()).(paused := true, waiter := Some(Keypad.StoreKeyAndResume(x)))
    {
      paused := true;
      keyboard.onNextKeyPress := Some(Keypad.StoreKeyAndResume(x));
    }

    /** The instructions that write one register, or the 8xyN group, once PC has moved past the instruction. */
    method ExecuteRegister(ins: Instr, rand: RandomByte)
      requires Valid() && IsRegister(ins)
      modifies v
      ensures Valid()
      ensures State() == RegisterEffect(old(State()), ins, rand)
    {
      match ins
      case LdByte(x, kk) => v[x] := kk;
      case AddByte(x, kk) => v[x] := (v[x] as int + kk) % 256;
      case Alu(f, x, y) => ExecuteAlu(f, x, y);
      case Rnd(x, kk) => v[x] := And8(rand, kk);
      case LdVxDt(x) => v[x] := delayTimer;
    }

    /** The instructions that set I or a timer. */
    method ExecuteIndexOrTimer(ins: Instr)
      requires Valid() && IsIndexOrTimer(ins)
      modifies this
      ensures Valid()
      ensures State() == IndexOrTimerEffect(old(State()), ins)
    {
      match ins
      case LdI(nnn) => i := nnn;
      case LdDtVx(x) => delayTimer := v[x];
      case LdStVx(x) => soundTimer := v[x];
      case AddI(x) => i := i + v[x];
      case LdFont(x) => i := v[x] as int * 5;
    }

    /** 00E0 and Dxyn. */
    method ExecuteDisplay(ins: Instr)
      requires Valid() && IsDisplay(ins)
      modifies v, renderer
      ensures Valid()
      ensures State() == DisplayEffect(old(State()), ins)
    {
      match ins
      case Cls => renderer.Clear();
      case Drw(x, y, n) => Draw(x, y, n);
    }

    /** Fx33, Fx55 and Fx65. */
    method ExecuteMemory(ins: Instr)
      requires Valid() && IsMemory(ins)
      modifies memory, v
      ensures Valid()
      ensures State() == MemoryEffect(old(State()), ins)
    {
      match ins
      case Bcd(x) => WriteBcd(v[x]);
      case StoreRegs(x) => StoreRegisters(x);
      case LoadRegs(x) => LoadRegisters(x);
    }

    /** 00EE, 1nnn, 2nnn and Bnnn, once PC has moved past the instruction. */
    method ExecuteFlow(ins: Instr)
      requires Valid() && IsFlow(ins)
      modifies this
      ensures Valid()
      ensures State() == FlowEffect(old(State()), ins)
    {
      match ins
      case Ret =>
        if |stack| == 0 {
          pcUndefined := true;
        } else {
          pc := stack[|stack| - 1];
          stack := stack[..|stack| - 1];
        }
      case Jp(nnn) => pc := nnn;
      case Call(nnn) =>
        stack := stack + [pc];
        pc := nnn;
      case JpV0(nnn) => pc := nnn + v[0];
    }

    /** The six conditional skips, once PC has moved past the instruction. */
    method ExecuteSkip(ins: Instr)
      requires Valid() && IsSkip(ins)
      modifies this
      ensures Valid()
      ensures State() == SkipEffect(old(State()), ins)
    {
      var taken: bool;
      match ins {
        case SeByte(x, kk) => taken := v[x] == kk;
        case SneByte(x, kk) => taken := v[x] != kk;
        case SeReg(x, y) => taken := v[x] == v[y];
        case SneReg(x, y) => taken := v[x] != v[y];
        case Skp(x) => taken := keyboard.IsKeyPressed(v[x]);
        case Sknp(x) => taken := !keyboard.IsKeyPressed(v[x]);
      }
      if taken {
        pc := pc + 2;
      }
    }

    /** 8xyN, with the source's writes in the source's order. */
    method ExecuteAlu(f: AluOp, x: nibble, y: nibble)
      requires Valid()
      modifies v
      ensures v[..] == Arith(old(v[..]), f, x, y)
    {
      match f
      case Mov => v[x] := v[y];
      case Or => v[x] := Or8(v[x], v[y]);
      case And => v[x] := And8(v[x], v[y]);
      case Xor => v[x] := Xor8(v[x], v[y]);
      case AddCarry =>
        // `this.v[x] += this.v[y]` stores the sum modulo 256 and yields the full sum
        var sum := v[x] as int + v[y];
        v[x] := sum % 256;
        v[VF] := 0;
        if sum > 0xFF {
          v[VF] := 1;
        }
        v[x] := sum % 256;
      case Sub =>
        v[VF] := 0;
        if v[x] > v[y] {
          v[VF] := 1;
        }
        v[x] := (v[x] as int - v[y]) % 256;
      case Shr =>
        v[VF] := And8(v[x], 0x1);
        v[x] := v[x] / 2;
      case SubN =>
        v[VF] := 0;
        if v[y] > v[x] {
          v[VF] := 1;
        }
        v[x] := (v[y] as int - v[x]) % 256;
      case Shl =>
        v[VF] := And8(v[x], 0x80);
        v[x] := (v[x] as int * 2) % 256;
    }

    /**
     * The display and the registers after the first k pixels of a sprite drawn
     * from the machine m: VF as the draw loops left it, every other register
     * as in m.
     */
    ghost predicate Drawn(m: Machine, x: nibble, y: nibble, k: nat)
      reads v, renderer
    {
      && |m.v| == 16
      && renderer.display == DrawUpTo(m, x, y, k).lit
      && v[..] == m.v[VF := DrawUpTo(m, x, y, k).vf]
    }

    /**
     * Dxyn: VF is cleared, then each set bit of the n sprite rows at I is
     * XOR-ed onto the display at (Vx + col, Vy + row), Vx and Vy being read
     * afresh for every pixel; an erasure sets VF.
     */
    method Draw(x: nibble, y: nibble, n: nibble)
      requires Valid()
      modifies v, renderer
      ensures renderer.display == DrawUpTo(old(State()), x, y, 8 * n).lit
      ensures v[..] == old(v[..])[VF := DrawUpTo(old(State()), x, y, 8 * n).vf]
    {
      ghost var m := State();
      var height := n;
      v[VF] := 0;
      for row := 0 to height
        invariant Drawn(m, x, y, 8 * row)
      {
        var b := Peek(i + row);
        DrawRow(x, y, row, b, m);
      }
    }

    /** One row of Dxyn: the eight columns of the sprite byte b read at I + row, most significant bit first. */
    method DrawRow(x: nibble, y: nibble, row: nat, b: byte, ghost m: Machine)
      requires v.Length == 16 && b == Load(m.mem, m.i + row)
      requires Drawn(m, x, y, 8 * row)
      modifies v, renderer
      ensures Drawn(m, x, y, 8 * row + 8)
    {
      var width := 8;
      var sprite: bv16 := b as bv16;
      for col := 0 to width
        invariant Drawn(m, x, y, 8 * row + col)
        invariant sprite == Shifted(b, col)
      {
        PixelBit(m, row, col);
        DrawPixel(x, y, row, col, sprite & 0x80 != 0, m);
        sprite := sprite << 1;
      }
    }

    /** One pixel of Dxyn: a set bit toggles its cell, and an erasure sets VF. */
    method DrawPixel(x: nibble, y: nibble, row: nat, col: nat, bit: bool, ghost m: Machine)
      requires v.Length == 16 && col < 8
      requires bit == PixelSet(m, 8 * row + col)
      requires Drawn(m, x, y, 8 * row + col)
      modifies v, renderer
      ensures Drawn(m, x, y, 8 * row + col + 1)
    {
      ghost var s := DrawUpTo(m, x, y, 8 * row + col);
      DrawUpToNext(m, x, y, row, col);
      if bit {
        assert v[x] == LiveReg(m, s.vf, x) && v[y] == LiveReg(m, s.vf, y);
        var erased := renderer.SetPixels(v[x] as int + col, v[y] as int + row);
        if erased {
          v[VF] := 1;
        }
      }
    }

    /** Fx33: the hundreds, tens and ones digits of b at I, I + 1 and I + 2. */
    method WriteBcd(b: byte)
      requires Valid()
      modifies memory
      ensures memory[..] == StoreBcd(old(memory[..]), i, b)
    {
      Poke(i, b / 100);
      Poke(i + 1, (b % 100) / 10);
      Poke(i + 2, b % 10);
    }

    /** Fx55: V0..Vx to memory at I, I + 1, ... */
    method StoreRegisters(x: nibble)
      requires Valid()
      modifies memory
      ensures memory[..] == CopyIn(old(memory[..]), i, v[..], x + 1)
    {
      ghost var mem0 := memory[..];
      for r := 0 to x + 1
        invariant memory[..] == CopyIn(mem0, i, v[..], r)
      {
        Poke(i + r, v[r]);
      }
    }

    /** Fx65: V0..Vx from memory at I, I + 1, ... */
    method LoadRegisters(x: nibble)
      requires Valid()
      modifies v
      ensures v[..] == LoadUpTo(old(v[..]), memory[..], i, x + 1)
    {
      ghost var v0 := v[..];
      for r := 0 to x + 1
        invariant v[..] == LoadUpTo(v0, memory[..], i, r)
      {
        var b := Peek(i + r);
        v[r] := b;
      }
    }

    /** A host key-down: the keypad records it and, if Fx0A is waiting, hands over the key. */
    method OnKeyDown(code: int)
      requires Valid()
      modifies this, v, keyboard
      ensures Valid()
      ensures State() == KeyDown(old(State()), code)
    {
      var fired := keyboard.OnKeyDown(code);
      match fired
      case None =>
      case Some((cb, key)) => StoreKeyAndResume(cb.register, key);
    }

    /** A host key-up: only the keypad changes. */
    method OnKeyUp(code: int)
      requires Valid()
      modifies keyboard
      ensures Valid()
      ensures State() == KeyUp(old(State()), code)
    {
      keyboard.OnKeyUp(code);
    }

    /** The continuation Fx0A registers: the key goes to Vx and execution resumes. */
    method StoreKeyAndResume(x: nibble, key: nibble)
      requires Valid()
      modifies this, v
      ensures Valid()
      ensures State() == KeyArrived(old(State()), x, key)
    {
      v[x] := key;
      paused := false;
    }
  }
}
