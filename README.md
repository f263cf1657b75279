# CHIP-8 interpreter core, modelled in Dafny

This project models the interpreter of a browser CHIP-8 emulator. It covers three classes:

- **CPU** (`scripts/cpu.mjs`): 4 KiB of memory, sixteen 8-bit registers V0..VF, the address register I, the program counter, the return stack, the delay and sound timers, the run/pause flag and the per-frame instruction count. Its operations are:
  - loading the font;
  - loading a program;
  - fetching, decoding and executing all 34 instructions;
  - one frame of the scheduler.
- **Renderer** (`scripts/renderer.mjs`): its 64 x 32 pixel buffer, toggled one cell at a time by the draw instruction. The buffer's erase report is what produces the collision flag.
- **Keyboard** (`scripts/keyboard.mjs`): the host-code-to-keypad map, the pressed flags, and the one-shot slot that the wait-for-key instruction fills.

The project is split into these files:

- `bytes.dfy` (`Bytes`): the byte and nibble types, the bitwise operators, and the typed array's out-of-range behaviour. A read out of range gives 0 and a write out of range is dropped.
- `renderer.dfy` (`Display`): the `Renderer` class, holding the set of lit cells.
- `keyboard.dfy` (`Keypad`): the `Keyboard` class and its key map.
- `opcodes.dfy` (`Opcodes`): the decoder, from a 16-bit word to one of the instruction forms. It comes with an encoder and both round trips.
- `semantics.dfy` (`Semantics`): the meaning of each instruction, of one step and of one frame. These are functions on a value, `Machine`, that holds the whole state.
- `cpu.dfy` (`Cpu`): the `CPU` class. It works in place on a memory array and a register array. The memory accessors and the two loaders are proved against `Store` and `CopyIn`. The instruction, frame, timer and key methods are proved to leave `State()` exactly as the `Semantics` function for each says.

## Behaviour as coded

The model follows the code. In these places the code differs from the usual CHIP-8 description:

- The timers are decremented only when the machine is not paused. A frame spent waiting for a key changes nothing at all (`PausedFrameIsIdle`).
- Fx1E adds Vx to I without masking. I and PC are unbounded, and any memory access past 0xFFF reads 0 or is dropped, as with a `Uint8Array`.
- The wrap in `setPixels` tests `x > cols`, so x == 64 is not wrapped. That coordinate lands on column 0 of the next row (`EdgeColumnAliasesNextRow`).
- The wrap subtracts cols only once, and Dxyn draws at Vx + col, which can reach 262. An x of 129 or more is left at 65 or beyond and spills into a lower row: x = 200 on row 0 toggles column 8 of row 2 (`WideColumnSpillsDown`). A y left at rows or beyond lands past the last cell, where it is stored but never painted.
- RET on an empty stack does not stop anything: `pop()` yields `undefined`. The model records this as `pcUndefined`. After it, every fetch reads 0x0000, which does nothing, so only the timers keep running.
- The random byte of Cxkk comes from `Math.floor(Math.random() * 0xff)`, so it lies in 0..254 (`RandomByte`).
- Key 0x0 (host key X) is falsy in `onKeyDown`'s test, so it never ends a wait.
- In 8xy4..8xyE and Dxyn, operands are read after the writes that come before them. This matters when x or y is F: for example, 8xy5 clears VF before comparing.
- The unknown-opcode `throw` is unreachable, because the high-nibble switch covers all sixteen values. An unmatched sub-code in the 0, 8, E or F group only advances PC.
- Fx33 is modelled as documented (three cells). The code as written is recorded under Findings.

## Model

| member | source | states |
|---|---|---|
| Bytes.Store | scripts/cpu.mjs:8 | a write into the Uint8Array memory keeps its length and changes exactly the addressed cell, or nothing when the address is out of range |
| Bytes.LoadAfterStore | scripts/cpu.mjs:8 | a read of the Uint8Array memory after a write sees the byte written at that cell, never an out-of-range write, and the old contents everywhere else |
| Cpu.CPU.Poke | scripts/cpu.mjs:8 | a memory write through the array has exactly the effect `Store` describes |
| Cpu.CPU.Peek | scripts/cpu.mjs:8 | a memory read gives the cell, or 0 out of range |
| Display.Wrap | scripts/renderer.mjs:22-32 | one wrap step moves a coordinate by at most one screen size, and leaves 0 .. size, the edge itself included, alone |
| Display.PixelIndex | scripts/renderer.mjs:35 | the cell index is row-major: an on-screen (x, y) gives an on-screen cell whose column is x and whose row is y |
| Display.WideColumnSpillsDown | scripts/renderer.mjs:22-35 | an x left at cols or beyond by the single wrap addresses column (x - cols) mod cols of a lower row; x = 200 on row 0 is the cell of (8, 2) |
| Display.Toggle | scripts/renderer.mjs:38 | XOR-ing 1 into cell p flips p and leaves every other cell as it was |
| Display.Renderer.constructor | scripts/renderer.mjs:16 | a new display has no lit cell |
| Display.Renderer.SetPixels | scripts/renderer.mjs:19-42 | the display becomes the old one with exactly the wrapped cell x + y * cols flipped; the result is true iff that cell was lit before, that is, it is now off |
| Display.Renderer.Clear | scripts/renderer.mjs:44-47 | afterwards no coordinate reads as lit, so the next SetPixels reports no erasure |
| Display.ToggleTwice | scripts/renderer.mjs:38 | toggling the same cell twice restores the display |
| Display.ToggleCommutes | scripts/renderer.mjs:38 | toggles of two cells give the same display in either order |
| Display.WrapOnce | scripts/renderer.mjs:22-32 | one wrap step brings any coordinate in -size..2*size into 0..size; it reaches size itself only from size or 2*size; on-screen coordinates are unchanged |
| Display.EdgeColumnAliasesNextRow | scripts/renderer.mjs:22-35 | x == cols addresses the same cell as (0, y + 1); that cell is on screen except on the last row |
| Display.PixelIndexInjective | scripts/renderer.mjs:35 | distinct on-screen coordinates address distinct cells |
| Keypad.KeymapOnto | scripts/keyboard.mjs:5-22 | every keypad value 0x0..0xF is the image of a host code |
| Keypad.KeymapInjective | scripts/keyboard.mjs:5-22 | no two host codes map to the same keypad value |
| Keypad.Keyboard.IsKeyPressed | scripts/keyboard.mjs:33-35 | only one of the sixteen keys can read as pressed; any other index reads as released |
| Keypad.Fire | scripts/keyboard.mjs:42-45 | a key-down fires exactly when a continuation is registered and the code maps to a nonzero key, and then hands over that continuation with the key |
| Keypad.AfterKeyEvent | scripts/keyboard.mjs:37-51 | after an event, the mapped key reads pressed iff the event was a key-down, and every other key reads as before |
| Keypad.Keyboard.constructor | scripts/keyboard.mjs:24-27 | initially no key is pressed and no continuation is registered |
| Keypad.Keyboard.OnKeyDown | scripts/keyboard.mjs:37-46 | marks the mapped key pressed; returns the registered continuation with the key when one is registered and the key is nonzero, and then clears the slot; otherwise the slot is kept |
| Keypad.Keyboard.OnKeyUp | scripts/keyboard.mjs:48-51 | marks the mapped key released and leaves the slot alone |
| Keypad.LatestEventWins | scripts/keyboard.mjs:33-51 | after any sequence of events, isKeyPressed(k) reports the most recent event for k |
| Keypad.FiresAtMostOnce | scripts/keyboard.mjs:42-45 | an empty slot never fires, whatever the key; together with Keyboard.OnKeyDown, which empties the slot when it fires, a continuation runs at most once |
| Keypad.KeyZeroNeverFires | scripts/keyboard.mjs:42 | an unmapped code or key 0x0 never fires the continuation |
| Opcodes.Decode | scripts/cpu.mjs:221-566 | an opcode is left unrecognised only in the 0, 8, E and F groups, where a sub-code matches no case, and then the word itself is kept |
| Opcodes.DecodeEncode | scripts/cpu.mjs:221-566 | decoding the word of any canonical instruction gives back that instruction |
| Opcodes.EncodeDecode | scripts/cpu.mjs:221-566 | re-encoding a decoded word gives the word back, except that the unexamined low nibble of 5xy_ and 9xy_ becomes 0 |
| Semantics.PowerOn | scripts/cpu.mjs:2-31 | the initial machine is well formed, with PC at 0x200, an empty stack and not paused |
| Cpu.CPU.constructor | scripts/cpu.mjs:2-31 | zeroed 4096-byte memory and 16 registers, I = 0, timers 0, PC = 0x200, empty stack, not paused, speed 10 |
| Semantics.CopyIn | scripts/cpu.mjs:120-129 | the byte-copy loops of both loaders and of Fx55 never change the size of memory, since writes past the end are dropped |
| Cpu.CPU.LoadSpritesIntoMemory | scripts/cpu.mjs:33-123 | memory becomes the font copied in from address 0 |
| Semantics.FontInPlace | scripts/cpu.mjs:120-122 | after the font copy, cells 0x00..0x4F hold the 80 font bytes and the other cells are untouched |
| Semantics.CopyInAt | scripts/cpu.mjs:125-129 | after a copy loop, each cell inside the copied window holds the corresponding source byte and every cell outside is untouched |
| Cpu.CPU.LoadProgramIntoMemory | scripts/cpu.mjs:125-129 | memory becomes the program copied in from 0x200, with bytes past the end dropped |
| Semantics.ProgramInPlace | scripts/cpu.mjs:125-129 | a program that fits lies at 0x200.. byte for byte |
| Semantics.ProgramKeepsRest | scripts/cpu.mjs:125-129 | loading a program leaves the font area below 0x200, and the cells after a fitting program, unchanged |
| Semantics.OversizedProgramTruncated | scripts/cpu.mjs:125-129 | of a program longer than 0xE00 bytes, exactly the first 0xE00 are kept |
| Cpu.CPU.Cycle | scripts/cpu.mjs:156-180 | a frame runs a step per random byte while not paused (fetching the big-endian word at PC), then ticks the timers unless paused; the tone is on iff the sound timer is positive |
| Semantics.Fetch | scripts/cpu.mjs:168 | the fetched word's high byte is memory[PC] and its low byte is memory[PC + 1], each 0 past the end of memory |
| Semantics.Step | scripts/cpu.mjs:161-170 | a step keeps the machine well formed and never changes the keypad's pressed flags |
| Semantics.Run | scripts/cpu.mjs:159-172 | the passes of the frame loop keep the machine well formed and never change the pressed flags |
| Semantics.Frame | scripts/cpu.mjs:156-177 | a whole frame keeps the machine well formed and never changes the pressed flags |
| Cpu.CPU.FetchAndExecute | scripts/cpu.mjs:161-170 | a pass of the frame loop that is not paused executes the big-endian word at PC, exactly one Step |
| Semantics.StepFetched | scripts/cpu.mjs:168-169 | fetching the canonical word of an instruction at PC executes that very instruction |
| Semantics.RunNext | scripts/cpu.mjs:159-172 | proof helper for Cycle's loop: one more pass of the frame loop is one more Step, unless the machine is paused by then |
| Semantics.PausedFrameIsIdle | scripts/cpu.mjs:156-177 | while waiting for a key, a frame fetches nothing and leaves the timers and the whole state unchanged |
| Semantics.UndefinedPcRunsNothing | scripts/cpu.mjs:236-241 | once RET has left PC undefined, no step changes the machine |
| Semantics.Tick | scripts/cpu.mjs:182-190 | a timer goes down exactly when it is positive, never goes up, and nothing but the two timers changes |
| Cpu.CPU.UpdateTimers | scripts/cpu.mjs:182-190 | each timer goes down by one if positive |
| Semantics.TickSemantics | scripts/cpu.mjs:182-190 | proof helper: the closed form of Tick for each timer, by exactly one when positive and unchanged at 0 |
| Cpu.CPU.PlaySound | scripts/cpu.mjs:192-198 | the tone is on exactly while the sound timer is positive |
| Cpu.CPU.Execute | scripts/cpu.mjs:209-568 | the machine after one opcode is exactly Exec of the decoded instruction: PC advanced by 2, then the instruction's effect |
| Semantics.Exec | scripts/cpu.mjs:209-568 | every instruction keeps the machine well formed (16 registers of bytes, 4096 bytes of memory, byte-sized timers) and does not touch the keypad's pressed flags |
| Semantics.AdvancesPastInstruction | scripts/cpu.mjs:212 | every instruction other than a jump, call, return or skip leaves PC at old PC + 2 |
| Semantics.SkipEffect | scripts/cpu.mjs:257-481 | a skip changes only PC, and by 0 or 2 beyond the advance |
| Cpu.CPU.ExecuteSkip | scripts/cpu.mjs:257-481 | each of the six skips adds 2 more to PC exactly when its condition holds, as SkipEffect says: 3xkk, 4xkk and 5xy0 at lines 257-281, 9xy0 at 390-398, Ex9E and ExA1 at 460-481 |
| Semantics.SkipSemantics | scripts/cpu.mjs:257-281 | a skip changes nothing but PC, which ends at old PC + 4 when the condition holds and old PC + 2 otherwise |
| Semantics.FlowEffect | scripts/cpu.mjs:236-413 | RET, 1nnn, 2nnn and Bnnn change only PC, the undefined-PC flag and the stack; CALL grows the stack by one, RET on a non-empty stack shrinks it by one |
| Cpu.CPU.ExecuteFlow | scripts/cpu.mjs:236-413 | as FlowEffect says: RET pops PC or leaves it undefined on an empty stack, 1nnn jumps and 2nnn pushes the advanced PC and jumps (lines 236-256); Bnnn jumps to nnn + V0 (lines 407-413) |
| Semantics.JumpSemantics | scripts/cpu.mjs:245-250 | 1nnn sets PC to nnn and changes nothing else, the stack included |
| Semantics.CallThenReturn | scripts/cpu.mjs:236-256 | 2nnn pushes old PC + 2 and jumps to nnn; a RET reached with that stack resumes at old PC + 2 with the caller's stack restored |
| Semantics.ReturnOnEmptyStack | scripts/cpu.mjs:236-241 | RET with an empty stack leaves PC undefined |
| Semantics.RegisterEffect | scripts/cpu.mjs:282-490 | 6xkk, 7xkk, 8xyN, Cxkk and Fx07 change only the registers, and of those only Vx and VF |
| Cpu.CPU.ExecuteRegister | scripts/cpu.mjs:282-490 | 6xkk, 7xkk, 8xyN, Cxkk (lines 282-422) and Fx07 (lines 484-490) write the registers exactly as RegisterEffect says, and nothing else changes |
| Semantics.AddByteSemantics | scripts/cpu.mjs:288-293 | 7xkk sets Vx to (Vx + kk) mod 256 and leaves every other register, VF included, unchanged |
| Semantics.Arith | scripts/cpu.mjs:296-386 | every 8xyN operation writes Vx and VF only; the other fourteen registers keep their values |
| Cpu.CPU.ExecuteAlu | scripts/cpu.mjs:296-386 | the 8xyN writes, in the source's order, leave the registers as Arith says |
| Semantics.AddCarrySemantics | scripts/cpu.mjs:320-334 | 8xy4: VF = 1 iff the unmasked Vx + Vy exceeds 255, Vx = the sum mod 256, other registers unchanged |
| Semantics.SubSemantics | scripts/cpu.mjs:335-347 | 8xy5: VF = 1 iff Vx > Vy before the subtraction, Vx = (Vx - Vy) mod 256, other registers unchanged |
| Semantics.ShrSemantics | scripts/cpu.mjs:348-360 | 8xy6: VF = the low bit of Vx and Vx = Vx div 2, so 2 * Vx' + VF = Vx |
| Semantics.SubNSemantics | scripts/cpu.mjs:361-374 | 8xy7: VF = 1 iff Vy > Vx, Vx = (Vy - Vx) mod 256, other registers unchanged |
| Semantics.ShlSemantics | scripts/cpu.mjs:375-386 | 8xyE: VF = Vx & 0x80, which is 0 or 0x80 and never 1; Vx = 2 * Vx mod 256 |
| Semantics.IndexOrTimerEffect | scripts/cpu.mjs:399-527 | Annn, Fx15, Fx18, Fx1E and Fx29 change only I and the two timers |
| Cpu.CPU.ExecuteIndexOrTimer | scripts/cpu.mjs:399-527 | Annn (lines 399-406) and Fx15, Fx18, Fx1E, Fx29 (lines 503-527) set I or a timer exactly as IndexOrTimerEffect says, and nothing else changes |
| Semantics.FontGlyph | scripts/cpu.mjs:521-527 | with the font loaded, Fx29 points I at the five bytes of the glyph for the digit in Vx |
| Semantics.DisplayEffect | scripts/cpu.mjs:231-459 | 00E0 and Dxyn change only the display and VF |
| Cpu.CPU.ExecuteDisplay | scripts/cpu.mjs:231-459 | 00E0 (lines 231-235) leaves no lit cell and Dxyn (lines 423-459) draws the sprite, exactly as DisplayEffect says; nothing else changes |
| Semantics.DrawUpTo | scripts/cpu.mjs:427-458 | the collision flag the draw loops keep is always 0 or 1 |
| Semantics.DrawSprite | scripts/cpu.mjs:423-459 | Dxyn changes only the display and the registers, and leaves VF at 0 or 1 |
| Cpu.CPU.Draw | scripts/cpu.mjs:423-459 | after Dxyn the display and VF are those of DrawUpTo over all 8n sprite pixels, and no other register changes |
| Cpu.CPU.DrawRow | scripts/cpu.mjs:436-456 | given the sprite byte read at I + row, one sprite row makes one setPixels call per set bit, most significant bit first, at (Vx + col, Vy + row), and leaves display and VF as DrawUpTo does after 8 more pixels |
| Cpu.CPU.DrawPixel | scripts/cpu.mjs:441-448 | one pixel of the sprite: a set bit makes one setPixels call at (Vx + col, Vy + row), reading Vx and Vy as they are at that moment, and sets VF when it reports an erasure |
| Semantics.PixelBit | scripts/cpu.mjs:436-454 | the pixel the loop tests at (row, col) is the most significant bit of the sprite byte at I + row after col left shifts |
| Semantics.DrawUpToNext | scripts/cpu.mjs:437-455 | proof helper for the draw loops: one more pixel of DrawUpTo toggles its cell when its bit is set and sets VF when that toggle erased a lit cell |
| Semantics.DrawCollision | scripts/cpu.mjs:431-447 | VF after the sprite is 1 iff some setPixels call of the sprite reported an erasure, and 0 otherwise |
| Semantics.DrawSpriteEffect | scripts/cpu.mjs:423-459 | Dxyn changes only the display and VF; memory, I, PC, the stack and V0..VE are unchanged; VF is 1 or 0 by collision |
| Cpu.CPU.ExecuteKeyWait | scripts/cpu.mjs:491-502 | Fx0A pauses the machine and registers the continuation for Vx in the keypad's slot, replacing any earlier one; nothing else changes |
| Semantics.WaitForKey | scripts/cpu.mjs:491-502 | after Fx0A the machine is paused; the first nonzero mapped key-down stores the key in Vx, resumes and empties the slot, and a later key-down changes no register |
| Semantics.WaitIgnoresKeyZero | scripts/keyboard.mjs:42 | while waiting, key 0x0 or an unmapped code leaves the machine paused with its registers and slot unchanged |
| Semantics.KeyArrived | scripts/cpu.mjs:497-500 | the continuation of Fx0A writes the key into Vx, clears the pause, and changes nothing else |
| Semantics.KeyDown | scripts/keyboard.mjs:37-46 | a key-down never registers a continuation of its own; without a pending wait it changes only the pressed flags |
| Semantics.KeyUp | scripts/keyboard.mjs:48-51 | a key-up changes only the pressed flags |
| Cpu.CPU.StoreKeyAndResume | scripts/cpu.mjs:497-500 | the continuation writes the key into Vx and clears the pause |
| Cpu.CPU.OnKeyDown | scripts/keyboard.mjs:37-46 | a host key-down updates the keypad and, when the continuation fires, runs it: the machine ends as KeyDown says |
| Cpu.CPU.OnKeyUp | scripts/keyboard.mjs:48-51 | a host key-up changes only the keypad's pressed flags |
| Semantics.MemoryEffect | scripts/cpu.mjs:528-560 | Fx33, Fx55 and Fx65 change only memory and the registers: Fx65 only the registers, the other two only memory |
| Semantics.LoadUpTo | scripts/cpu.mjs:552-560 | the Fx65 loop for V0..Vx never touches a register above x, and keeps sixteen registers |
| Cpu.CPU.ExecuteMemory | scripts/cpu.mjs:528-560 | Fx33, Fx55 and Fx65 change memory or registers exactly as MemoryEffect says, and nothing else changes |
| Cpu.CPU.WriteBcd | scripts/cpu.mjs:528-542 | Fx33 writes the hundreds, tens and ones digits of Vx at I, I + 1 and I + 2 |
| Semantics.BcdDigits | scripts/cpu.mjs:528-531 | the three cells Fx33 writes are decimal digits d0 d1 d2 with 100 * d0 + 10 * d1 + d2 = Vx, and no other cell changes |
| Semantics.BcdAsWrittenKeepsOnlyOnes | scripts/cpu.mjs:534-541 | the code as written leaves only the ones digit, at I, and never touches I + 1 or I + 2 |
| Semantics.BcdAsWrittenCounterexample | scripts/cpu.mjs:534-541 | for 254 at 0x200 the documented result is 2, 5, 4, but the code gives 4, 0, 0 in zeroed memory |
| Cpu.CPU.StoreRegisters | scripts/cpu.mjs:543-551 | Fx55 copies V0..Vx, x included, to memory at I.. |
| Cpu.CPU.LoadRegisters | scripts/cpu.mjs:552-560 | Fx65 copies memory at I.. into V0..Vx, x included |
| Semantics.LoadUpToAt | scripts/cpu.mjs:552-560 | after the Fx65 loop, register r holds memory[I + r] if r <= x and is unchanged otherwise |
| Semantics.StoreThenLoadRegisters | scripts/cpu.mjs:543-560 | reading back what the Fx55 loop wrote gives V0..Vx, whatever the registers held in between |
| Semantics.StoreLoadRoundTrip | scripts/cpu.mjs:543-560 | Fx55 then Fx65 at the same I restores V0..Vx, keeps V(x+1).. as they were in between, and neither changes I |
| Semantics.StepLdByte | scripts/cpu.mjs:282-287 | 6xkk fetched at PC sets Vx to kk and PC to old PC + 2, and changes nothing else |
| Semantics.StepAlu | scripts/cpu.mjs:296-386 | 8xyN fetched at PC applies its ALU operation to the registers and advances PC, and changes nothing else |
| Semantics.SumWithoutCarry | scripts/cpu.mjs:320-334 | 8xy4 on a sum below 256 stores the plain sum and clears VF |
| Semantics.AddProgramScenario | scripts/cpu.mjs:282-334 | the program 6005 6103 8014 at 0x200 leaves V0 = 8, V1 = 3, VF = 0 and PC = 0x206 after three steps |

## Left out

- `loadRom` (scripts/cpu.mjs:131-154) fetches a ROM over the network; only the byte-copy loader it calls is modelled.
- scripts/chip8.mjs (page wiring, frame pacing with `requestAnimationFrame` and `Date.now`, control fetching) is not part of this model. A frame is the `Cycle` method, called by whoever drives it.
- scripts/speaker.mjs is not part of this model, and neither is the `speaker` constructor argument. `playSound` is reduced to the tone flag it decides.
- `Renderer.render`, `testRender` and the canvas setup (scripts/renderer.mjs:9-12, 49-77) draw to a 2D context; the model keeps only the pixel buffer.
- The `window.addEventListener` registration in the keyboard (scripts/keyboard.mjs:29-30): host key codes arrive as method parameters.
- `Math.random` in Cxkk (scripts/cpu.mjs:418) is floating point. Each step takes its random byte as a parameter, already reduced to 0..254.
- Cpu.CPU.Execute: requires a defined PC. With PC undefined the source still runs `executeInstruction` on the word 0x0000, which only turns `NaN` into `NaN`. `FetchAndExecute` models this by not calling `Execute` once PC is undefined.
- Cpu.CPU.Cycle: requires exactly `speed` random bytes, one per pass of the loop, whether or not that pass runs an instruction.
- JavaScript numbers are doubles. I and PC are modelled as unbounded naturals, which is exact below 2^53, far beyond any reachable value.
- An unmapped host code writes the `undefined` property of the pressed-state array. No numeric query reads that property, so the model leaves the sixteen flags unchanged.
- The `onNextKeyPress` closure is represented by the one value it can hold, the continuation for register x (`Keypad.Callback`). The keyboard returns it, and the CPU runs it.

## Findings

| source | as written | input that shows it | evidently intended | confidence | as-written member | corrected member |
|---|---|---|---|---|---|---|
| scripts/cpu.mjs:534-541 | all three BCD digits are stored at memory[I], so only the ones digit survives and I + 1, I + 2 are never written | Vx = 254, I = 0x200, zeroed memory: memory[0x200..0x203] = 4, 0, 0 | hundreds, tens and ones at I, I + 1, I + 2: 2, 5, 4 | not executed | Semantics.StoreBcdAsWritten | Semantics.StoreBcd |
