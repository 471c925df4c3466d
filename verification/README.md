# TM4C123 NVIC and SysTick drivers in Dafny

This project models two bare-metal drivers for the TM4C123GH6PM (an ARM Cortex-M4
microcontroller) and proves properties of them.

- The **NVIC driver** (`Nvic`, in `nvic.dfy`) enables and disables the peripheral
  interrupt lines 0..138. It sets the 3-bit priority of a line. It enables and disables
  the three configurable fault exceptions (MemManage, BusFault, UsageFault). It sets the
  priority of the seven named system exceptions.
- The **SysTick driver** (`SysTick`, in `systick.dfy`) does several things:
  - loads the system timer for a delay in milliseconds, either with its interrupt
    (`Init`) or by polling the COUNTFLAG bit (`StartBusyWait`);
  - stops, restarts and de-initialises the timer;
  - keeps one callback pointer, which the SysTick exception handler calls.

Memory-mapped registers are fields of immutable records, and every driver service is a
pure transition of its record.

- `Nvic.IrqRegs` holds the five enable registers, the five disable registers and the
  priority words.
- `Nvic.SysRegs` holds SHCSR (the system handler control and state register) and
  SHPR1..SHPR3 (the system handler priority registers).
- `SysTick.Timer` holds CTRL, RELOAD, CURRENT and the callback slot.

Registers whose bits the drivers set, clear or test are `bv32`. The IRQ number and the
priority argument are `bv8`, the width of their `uint8` types. `bits.dfy` (module `Bits`)
holds the shared bit vocabulary. `wrappers.dfy` holds `Option`, which stands for a
function pointer that may be null.

One defect is modelled both as written and as intended. `NVIC_SetPriorityIRQ` keeps its
clear-mask in a `uint8` variable, so the mask keeps nothing above bit 7 of the priority
word. Writing any IRQ's priority then wipes the priorities of its neighbours in byte lanes
1..3 of the same word (see "## Findings"). The as-written service is
`Nvic.SetPriorityIrq`; the corrected one is `Nvic.SetPriorityIrqIntended`.

The SysTick driver does not reject a 0 ms delay. The `-1` it stores wraps to
0xFFFF_FFFF, the longest period the register holds, rather than a zero delay
(`SysTick.ZeroDelayIsLongest`). The device keeps only 24 bits of RELOAD, so there a
0 ms request gives 2^24 ticks and delays from 1049 ms on wrap (`SysTick.DeviceRoundTrip`).

The busy wait's polling reads of CTRL come from the hardware. They are a parameter of
`SysTick.StartBusyWait`: a finite sequence of values the reads return. The callback is
an opaque identity. The handler returns the list of callbacks it invoked, and
`SysTick.Run` strings calls and interrupts together into a trace.

## Model

| member | source | states |
|---|---|---|
| `Bits.TruncateToU8` | ARM_Final_WS/ARM_Final_Project_Test/NVIC.c:112-126 | Storing a 32-bit value in a `uint8` keeps exactly its low byte. |
| `Nvic.OrLineBit` | ARM_Final_WS/ARM_Final_Project_Test/NVIC.c:35-57 | The IRQ-number switch writes at most one register of the bank: the one for `id / 32`. Every IRQ number up to 138 selects a register that exists, and an IRQ number above 138 writes nothing. |
| `Nvic.OrLineBitValue` | ARM_Final_WS/ARM_Final_Project_Test/NVIC.c:37-55 | The case ranges are the banks of 32 lines, and `id & 0x1F` is the bit inside the bank: the selected register gets exactly bit `id % 32` OR-ed in. |
| `Nvic.EnableIrq` | ARM_Final_WS/ARM_Final_Project_Test/NVIC.c:33-58 | NVIC_EnableIRQ writes only the enable registers, and nothing at all for IRQ numbers above 138. |
| `Nvic.DisableIrq` | ARM_Final_WS/ARM_Final_Project_Test/NVIC.c:70-95 | NVIC_DisableIRQ writes only the disable registers, and nothing at all for IRQ numbers above 138. |
| `Nvic.EnableIrqSetsBit` | ARM_Final_WS/ARM_Final_Project_Test/NVIC.c:37-55 | After enabling a line 0..138, its bit is set in its enable register. |
| `Nvic.EnableIrqKeepsOtherBits` | ARM_Final_WS/ARM_Final_Project_Test/NVIC.c:39-55 | Enabling a line keeps every other bit of its enable register, because the write is a read-modify-write OR. |
| `Nvic.DisableIrqSetsBit` | ARM_Final_WS/ARM_Final_Project_Test/NVIC.c:74-92 | After disabling a line 0..138, its bit is set in its disable register. |
| `Nvic.DisableIrqKeepsOtherBits` | ARM_Final_WS/ARM_Final_Project_Test/NVIC.c:76-92 | Disabling a line keeps every other bit of its disable register. |
| `Nvic.OrLineBitIdempotent` | ARM_Final_WS/ARM_Final_Project_Test/NVIC.c:35-57 | Applying the switch twice for the same IRQ equals applying it once. |
| `Nvic.EnableIrqIdempotent` | ARM_Final_WS/ARM_Final_Project_Test/NVIC.c:33-58 | Enabling a line twice equals enabling it once. |
| `Nvic.DisableIrqIdempotent` | ARM_Final_WS/ARM_Final_Project_Test/NVIC.c:70-95 | Disabling a line twice equals disabling it once. |
| `Nvic.EnableDisableCommute` | ARM_Final_WS/ARM_Final_Project_Test/NVIC.c:33-95 | Enable and disable calls write disjoint registers, so they commute for any two IRQ numbers. |
| `Nvic.PriWord` | ARM_Final_WS/ARM_Final_Project_Test/NVIC.c:117 | The priority word address `base + (id / 4) * 4` stays within the 64 words an 8-bit IRQ number can reach. |
| `Nvic.PriPos` | ARM_Final_WS/ARM_Final_Project_Test/NVIC.c:119-124 | `(id & 3) << 3`, OR-ed with 5, is bit 5 of the IRQ's own byte lane `id % 4`, so it is one of 5, 13, 21, 29. |
| `Nvic.PriMaskAsWritten` | ARM_Final_WS/ARM_Final_Project_Test/NVIC.c:112-126 | The `uint8` Pri_Mask is 0x1F for lane 0, which still clears the IRQ's field. For lanes 1..3 it is 0xFF, which clears none of the IRQ's field. |
| `Nvic.PriWordAsWritten` | ARM_Final_WS/ARM_Final_Project_Test/NVIC.c:126-129 | The word NVIC_SetPriorityIRQ writes has a priority below 8 in the IRQ's field, for each of the four field positions. |
| `Nvic.SetPriorityIrq` | ARM_Final_WS/ARM_Final_Project_Test/NVIC.c:108-130 | NVIC_SetPriorityIRQ as written changes only the IRQ's own priority word. |
| `Nvic.SetPriorityIrqReadBack` | ARM_Final_WS/ARM_Final_Project_Test/NVIC.c:108-130 | After NVIC_SetPriorityIRQ, a priority below 8 reads back from the IRQ's field. |
| `Nvic.PriWordAsWrittenNeighbour` | ARM_Final_WS/ARM_Final_Project_Test/NVIC.c:126-129 | Word level, for every `uint8` priority: the neighbour field in lane 0 keeps its value, and neighbour fields in lanes 1..3 become 0. |
| `Nvic.SetPriorityIrqNeighbourFields` | ARM_Final_WS/ARM_Final_Project_Test/NVIC.c:108-130 | For every `uint8` priority written, a neighbouring IRQ's priority survives the write exactly when it sits in lane 0 or was already 0; otherwise it is cleared. |
| `Nvic.SameWordDifferentLane` | ARM_Final_WS/ARM_Final_Project_Test/NVIC.c:117-124 | Two different IRQ numbers that share a priority word sit in different byte lanes, so they have different field positions. |
| `Nvic.SetPriorityIrqClearsOtherIrqs` | ARM_Final_WS/ARM_Final_Project_Test/NVIC.c:108-130 | Over IRQ numbers, for every `uint8` priority written: every other IRQ in the same word and in lanes 1..3 reads priority 0 afterwards, so it keeps its priority if and only if that priority was 0. |
| `Nvic.PriWordAsWrittenClearsUpperBytes` | ARM_Final_WS/ARM_Final_Project_Test/NVIC.c:126-129 | Word level: after the as-written update, no bit above bit 7 outside the IRQ's field is set. |
| `Nvic.SetPriorityIrqClearsUpperBytes` | ARM_Final_WS/ARM_Final_Project_Test/NVIC.c:108-130 | After NVIC_SetPriorityIRQ, no bit above bit 7 outside the IRQ's field is set, whatever the word held before. |
| `Nvic.PriWordAsWrittenExact` | ARM_Final_WS/ARM_Final_Project_Test/NVIC.c:126-129 | Word level: the as-written update keeps byte 0 of the old word, less the field when the field lies in byte 0, and adds the priority. Nothing else of the old word remains. |
| `Nvic.SetPriorityIrqExact` | ARM_Final_WS/ARM_Final_Project_Test/NVIC.c:108-130 | After NVIC_SetPriorityIRQ the IRQ's priority word is exactly byte 0 of its old value, less the written field, OR-ed with the shifted priority. |
| `Nvic.NeighbourPriorityLost` | ARM_Final_WS/ARM_Final_Project_Test/NVIC.c:126-129 | Concrete input: PRI0 is all ones, and IRQ 0 gets priority 0. IRQs 1, 2 and 3 held priority 7 and then read 0. |
| `Nvic.SetPriorityIrqIntended` | ARM_Final_WS/ARM_Final_Project_Test/NVIC.c:119-129 | The corrected service, with a 32-bit mask, also changes only the IRQ's priority word. |
| `Nvic.SetPriorityIrqIntendedReadBack` | ARM_Final_WS/ARM_Final_Project_Test/NVIC.c:119-129 | With the 32-bit mask, a priority below 8 reads back from the IRQ's field. |
| `Nvic.SetPriorityIrqIntendedKeepsOthers` | ARM_Final_WS/ARM_Final_Project_Test/NVIC.c:119-129 | With the 32-bit mask, every bit of the word outside the IRQ's field keeps its value. |
| `Nvic.FieldWrittenKeepsNeighbour` | ARM_Final_WS/ARM_Final_Project_Test/NVIC.c:119-129 | Word level, for every `uint8` priority: a 3-bit field write keeps the other three priority fields of the word. |
| `Nvic.SetPriorityIrqIntendedKeepsNeighbours` | ARM_Final_WS/ARM_Final_Project_Test/NVIC.c:119-129 | With the 32-bit mask, every neighbouring IRQ keeps its priority, whatever `uint8` priority is written. |
| `Nvic.SetPriorityIrqIntendedKeepsOtherIrqs` | ARM_Final_WS/ARM_Final_Project_Test/NVIC.c:117-129 | Over IRQ numbers: with the 32-bit mask, every other IRQ keeps its priority, whether or not it shares the word, for every `uint8` priority. |
| `Nvic.PriWordsDifference` | ARM_Final_WS/ARM_Final_Project_Test/NVIC.c:126-129 | Word level: the as-written word and the intended word differ in exactly the old word's bits above bit 7 outside the field. |
| `Nvic.PriWordsAgreeIff` | ARM_Final_WS/ARM_Final_Project_Test/NVIC.c:126-129 | Word level: the two updates agree if and only if those bits were all 0. |
| `Nvic.SetPriorityIrqAgreesWithIntendedIff` | ARM_Final_WS/ARM_Final_Project_Test/NVIC.c:108-130 | The as-written and the intended service give the same registers if and only if the old priority word held nothing above bit 7 outside the IRQ's field. |
| `Nvic.FaultEnableMask` | ARM_Final_WS/ARM_Final_Project_Test/NVIC.c:146-156 | Each case of the switch names a non-zero enable mask that lies within the SHCSR enable bits 16..18. |
| `Nvic.FaultEnableMaskIsBit` | ARM_Final_WS/ARM_Final_Project_Test/NVIC.c:146-156 | Each fault's enable mask is the single SHCSR bit 16, 17 or 18. |
| `Nvic.EnableException` | ARM_Final_WS/ARM_Final_Project_Test/NVIC.c:142-159 | NVIC_EnableException writes only SHCSR. SVCall, DebugMonitor, PendSV, SysTick and unnamed values match no case, so nothing is written for them. |
| `Nvic.DisableException` | ARM_Final_WS/ARM_Final_Project_Test/NVIC.c:171-188 | NVIC_DisableException writes only SHCSR. SVCall, DebugMonitor, PendSV, SysTick and unnamed values match no case, so nothing is written for them. |
| `Nvic.EnableExceptionSetsBit` | ARM_Final_WS/ARM_Final_Project_Test/NVIC.c:146-156 | Enabling a fault sets its SHCSR enable bit. |
| `Nvic.EnableExceptionKeepsOtherBits` | ARM_Final_WS/ARM_Final_Project_Test/NVIC.c:146-156 | Enabling a fault keeps every other SHCSR bit. |
| `Nvic.DisableExceptionClearsBit` | ARM_Final_WS/ARM_Final_Project_Test/NVIC.c:175-185 | Disabling a fault clears its SHCSR enable bit. |
| `Nvic.DisableExceptionKeepsOtherBits` | ARM_Final_WS/ARM_Final_Project_Test/NVIC.c:175-185 | Disabling a fault keeps every other SHCSR bit. |
| `Nvic.DisableAfterEnableWord` | ARM_Final_WS/ARM_Final_Project_Test/NVIC.c:142-188 | For a fault, enabling then disabling leaves SHCSR with the fault's bit cleared and the other bits as they were. |
| `Nvic.DisableAfterEnable` | ARM_Final_WS/ARM_Final_Project_Test/NVIC.c:142-188 | Disabling after enabling equals disabling alone, for every exception value. |
| `Nvic.EnableAfterDisableWord` | ARM_Final_WS/ARM_Final_Project_Test/NVIC.c:142-188 | For a fault, disabling then enabling leaves SHCSR with the fault's bit set and the other bits as they were. |
| `Nvic.EnableAfterDisable` | ARM_Final_WS/ARM_Final_Project_Test/NVIC.c:142-188 | Enabling after disabling equals enabling alone, for every exception value. |
| `Nvic.PriorityPosOf` | ARM_Final_WS/ARM_Final_Project_Test/NVIC.c:205-232 | Each named exception's priority field starts at bit 5 of a byte: 5, 13, 21 or 29. |
| `Nvic.PriorityRegisterOf` | ARM_Final_WS/ARM_Final_Project_Test/NVIC.c:203-233 | The three faults and only they use PRI1, and SVCall alone uses PRI2. DebugMonitor, PendSV and SysTick use PRI3. |
| `Nvic.PriorityMaskOf` | ARM_Final_WS/ARM_Final_Project_Test/NVIC.c:205-232 | The assumed mask of each case is the complement of that exception's own 3-bit field. |
| `Nvic.SysPriWritten` | ARM_Final_WS/ARM_Final_Project_Test/NVIC.c:207-231 | The value written to the system priority register has a priority below 8 in the exception's field. |
| `Nvic.PriorityFieldsDisjoint` | ARM_Final_WS/ARM_Final_Project_Test/NVIC.c:205-232 | Two exceptions that share a priority register have different field positions. |
| `Nvic.SetPriorityException` | ARM_Final_WS/ARM_Final_Project_Test/NVIC.c:201-234 | NVIC_SetPriorityException writes exactly the one priority register its case names, and nothing for an unnamed value. |
| `Nvic.SetPriorityExceptionWrites` | ARM_Final_WS/ARM_Final_Project_Test/NVIC.c:205-232 | The named register receives the old value AND-ed with the mask, with the shifted priority OR-ed in. |
| `Nvic.SetPriorityExceptionReadBack` | ARM_Final_WS/ARM_Final_Project_Test/NVIC.c:205-232 | A priority below 8 reads back from the exception's field. |
| `Nvic.SetPriorityExceptionKeepsBits` | ARM_Final_WS/ARM_Final_Project_Test/NVIC.c:205-232 | Every bit of the register outside the exception's field keeps its value. |
| `Nvic.SetPriorityExceptionKeepsOthers` | ARM_Final_WS/ARM_Final_Project_Test/NVIC.c:201-234 | Setting one exception's priority, to any `uint8` value, keeps the priority of every other exception, including those in the same register. |
| `SysTick.CtrlLiterals` | ARM_Final_WS/ARM_Final_Project_Test/SysTick.c:72-105 | 0x07 is ENABLE, TICKINT and CLKSOURCE together. 0x05 is ENABLE and CLKSOURCE, without TICKINT. |
| `SysTick.TicksFor` | ARM_Final_WS/ARM_Final_Project_Test/SysTick.c:67 | `ms * 16000` for a `uint16` delay never overflows the signed `int` it is computed in, and it is a whole number of milliseconds. |
| `SysTick.IntToU32` | ARM_Final_WS/ARM_Final_Project_Test/SysTick.c:67 | Storing an `int` in the 32-bit register keeps it modulo 2^32. |
| `SysTick.ReloadFor` | ARM_Final_WS/ARM_Final_Project_Test/SysTick.c:66-67 | RELOAD is `ms * 16000 - 1` for a delay of at least 1 ms. For 0 ms it wraps to 0xFFFF_FFFF. |
| `SysTick.PeriodTicks` | ARM_Final_WS/ARM_Final_Project_Test/SysTick.c:66-67 | A period of the counter is `RELOAD + 1` ticks: at least 1 and at most 2^32. |
| `SysTick.ReloadRoundTrip` | ARM_Final_WS/ARM_Final_Project_Test/SysTick.c:66-67 | For a delay of at least 1 ms, a period of `RELOAD + 1` ticks is exactly `ms * 16000` ticks, so it gives back the requested delay. |
| `SysTick.ZeroDelayIsLongest` | ARM_Final_WS/ARM_Final_Project_Test/SysTick.c:67 | A 0 ms request loads 0xFFFF_FFFF: a period of 2^32 ticks (268435 whole ms). That is a longer RELOAD and period than every other delay, not a zero delay. |
| `SysTick.ReloadInjective` | ARM_Final_WS/ARM_Final_Project_Test/SysTick.c:66-67 | Two delays load the same RELOAD value if and only if they are equal. |
| `SysTick.DevicePeriodTicks` | ARM_Final_WS/ARM_Final_Project_Test/SysTick.c:66-67 | On the device only the low 24 bits of RELOAD count: a period is 1 to 2^24 ticks, and equals `RELOAD + 1` when RELOAD fits 24 bits. |
| `SysTick.DeviceRoundTrip` | ARM_Final_WS/ARM_Final_Project_Test/SysTick.c:66-67 | On the device a delay gives exactly `ms * 16000` ticks if and only if it is 1..1048 ms. A 0 ms request gives 2^24 ticks, and 1049 ms wraps to 6784 ticks. No delay stores a value whose low 24 bits are 0, which the hardware would never count out. |
| `SysTick.Init` | ARM_Final_WS/ARM_Final_Project_Test/SysTick.c:62-78 | SysTick_Init leaves CTRL at exactly 0x07, RELOAD at the delay's value and CURRENT at 0. The callback slot is not touched. |
| `SysTick.BusyWaitArmed` | ARM_Final_WS/ARM_Final_Project_Test/SysTick.c:93-105 | Before polling, the busy wait leaves CTRL at exactly 0x05, RELOAD at the delay's value and CURRENT at 0. The callback slot is not touched. |
| `SysTick.StartBusyWait` | ARM_Final_WS/ARM_Final_Project_Test/SysTick.c:91-112 | The busy wait returns if and only if some CTRL read has COUNTFLAG set, and it returns right after the first such read. It then stops the timer; otherwise it is still polling with the timer armed. The callback slot is kept. |
| `SysTick.SetCallBack` | ARM_Final_WS/ARM_Final_Project_Test/SysTick.c:125-128 | The slot holds the given pointer, null included, and no register changes. |
| `SysTick.Stop` | ARM_Final_WS/ARM_Final_Project_Test/SysTick.c:140-144 | SysTick_Stop writes only CTRL. |
| `SysTick.Start` | ARM_Final_WS/ARM_Final_Project_Test/SysTick.c:156-160 | SysTick_Start writes only CTRL. |
| `SysTick.DeInit` | ARM_Final_WS/ARM_Final_Project_Test/SysTick.c:172-182 | SysTick_DeInit zeroes CTRL, CURRENT and RELOAD, and it leaves the callback slot as it was. |
| `SysTick.Handler` | ARM_Final_WS/ARM_Final_Project_Test/SysTick.c:37-44 | The handler invokes a callback if and only if the slot holds one; it invokes that one, at most once, and changes no register. |
| `SysTick.StopClearsEnable` | ARM_Final_WS/ARM_Final_Project_Test/SysTick.c:140-144 | After Stop, ENABLE is clear and every other CTRL bit is unchanged. |
| `SysTick.StartSetsEnable` | ARM_Final_WS/ARM_Final_Project_Test/SysTick.c:156-160 | After Start, ENABLE is set and every other CTRL bit is unchanged. |
| `SysTick.StopIdempotentWord` | ARM_Final_WS/ARM_Final_Project_Test/SysTick.c:140-144 | Stopping twice leaves CTRL with only ENABLE cleared. |
| `SysTick.StopIdempotent` | ARM_Final_WS/ARM_Final_Project_Test/SysTick.c:140-144 | Stopping twice equals stopping once. |
| `SysTick.StartIdempotentWord` | ARM_Final_WS/ARM_Final_Project_Test/SysTick.c:156-160 | Starting twice leaves CTRL with only ENABLE set. |
| `SysTick.StartIdempotent` | ARM_Final_WS/ARM_Final_Project_Test/SysTick.c:156-160 | Starting twice equals starting once. |
| `SysTick.StopStartAfterInit` | ARM_Final_WS/ARM_Final_Project_Test/SysTick.c:62-160 | Stopping and then restarting an initialised timer gives back exactly the initialised state, RELOAD included. |
| `SysTick.BusyWaitEndsStopped` | ARM_Final_WS/ARM_Final_Project_Test/SysTick.c:105-111 | When the busy wait returns, CTRL holds only CLKSOURCE: the counter is stopped and its interrupt was never enabled. |
| `SysTick.DeInitUndoesInit` | ARM_Final_WS/ARM_Final_Project_Test/SysTick.c:62-182 | DeInit after Init gives the same state as DeInit alone, whatever the delay. |
| `SysTick.SetCallBackLatestWins` | ARM_Final_WS/ARM_Final_Project_Test/SysTick.c:125-128 | Of two SetCallBack calls, only the later one counts. |
| `SysTick.RunFirst` | ARM_Final_WS/ARM_Final_Project_Test/SysTick.c:37-182 | Running a non-empty call sequence is its first call followed by the rest, with the traces concatenated. |
| `SysTick.RunSlot` | ARM_Final_WS/ARM_Final_Project_Test/SysTick.c:22-182 | Over any sequence of interrupt-mode service calls and interrupts, the slot ends up holding the last pointer SetCallBack stored (or the initial one). The busy wait is not a `Run` step; its own contract keeps the slot. |
| `SysTick.RunTraceBound` | ARM_Final_WS/ARM_Final_Project_Test/SysTick.c:37-44 | At most one callback is invoked per interrupt taken. |
| `SysTick.RunInvokesOnlyOffered` | ARM_Final_WS/ARM_Final_Project_Test/SysTick.c:37-44 | Every invoked callback was in the slot at the start or was stored by some SetCallBack. |
| `SysTick.FixedCallbackFires` | ARM_Final_WS/ARM_Final_Project_Test/SysTick.c:37-44 | While no SetCallBack intervenes, the trace is the slot's callback once per interrupt, and it is empty when the slot is null. |
| `SysTick.StaleCallbackAfterDeInit` | ARM_Final_WS/ARM_Final_Project_Test/SysTick.c:172-182 | DeInit does not clear the slot: after SetCallBack(f), DeInit, Init and one interrupt, `f` is invoked. |
| `SysTick.PowerOn` | ARM_Final_WS/ARM_Final_Project_Test/SysTick.c:22-44 | `g_callBackPtr` starts out null, so an interrupt taken before any SetCallBack invokes nothing and changes nothing. The registers hold whatever the reset left. |
| `SysTick.NoSetCallBackLastSet` | ARM_Final_WS/ARM_Final_Project_Test/SysTick.c:125-128 | Without a SetCallBack call, the slot after a call sequence is the slot before it. |
| `SysTick.NothingInvokedBeforeSetCallBack` | ARM_Final_WS/ARM_Final_Project_Test/SysTick.c:22-44 | The slot starts out null, so before the first SetCallBack no callback is invoked and the slot stays null, whatever calls and interrupts come first. |

## Left out

- The register header is not part of this model. The SHCSR enable masks and the
  system-priority masks and positions are named constants. The enable bits 16/17/18 and
  the field positions (bits 5..7 of their bytes) come from section B3.2 of the ARMv7-M
  Architecture Reference Manual. That section does not fix the priority masks: each is
  assumed to be the clear-mask, the complement of its exception's 3-bit field (0xFFFF_FF1F
  and so on), not the field itself. `Nvic.PriorityMaskOf`, `Nvic.SetPriorityExceptionKeepsBits`
  and `Nvic.SetPriorityExceptionKeepsOthers` hold only under this assumption; with the field
  itself as mask, the write would keep only the old field and clear every neighbour.
  `NVIC_IRQType` and the priority types are taken to be `uint8`.
- Register addresses are not modelled. Registers are record fields, and the priority word
  address becomes an index 0..63. Words 35..63 lie past PRI34, the last one the device
  implements. The driver does not guard against reaching them, and neither does the model.
- The hardware's side effects are not modelled:
  - writing 1 to a DISn bit also clears the matching ENn bit, and reading DISn returns the
    enable state. On the device the `|=` of NVIC_DisableIRQ therefore writes back a 1 for
    every enabled line of the bank and disables them all; the model keeps DISn as a plain
    memory cell, where "keeps every other bit" holds;
  - only 24 bits of RELOAD are implemented. `SysTick.DevicePeriodTicks` and
    `SysTick.DeviceRoundTrip` state what that does to the periods; the other lemmas keep
    the 32-bit value the driver writes;
  - the counter counts down;
  - reading CTRL clears COUNTFLAG.

  The model keeps the values the driver writes.
- Shifts into bit 31 of a signed `int` are modelled as 32-bit shifts that keep bit 31 and
  drop the bits above it, which is what GCC on ARM produces. In C each of these overflows
  and its behaviour is undefined:
  - `1<<IRQ_Num` for IRQ 31 (NVIC.c lines 39 and 76);
  - `1<<(IRQ_Num & 0x1F)` for IRQs 63, 95 and 127 (NVIC.c lines 43-51 and 80-88);
  - `0x07<<Pri_Bits_Pos` for lane 3, where `7 << 29` does not fit an `int` (NVIC.c line 126);
  - `IRQ_Priority<<Pri_Bits_Pos` and `Exception_Priority << position` for a priority of 4
    or more shifted to bit 29 (NVIC.c lines 129 and 207-231).
- SysTick.ReloadRoundTrip: the round trip is stated for the 32-bit RELOAD value the
  driver writes. On the device only 24 bits count, so the requested delay comes back
  only for 1..1048 ms; from 1049 ms on it wraps (1049 ms gives 6784 ticks), as
  `SysTick.DeviceRoundTrip` states.
- SysTick.ZeroDelayIsLongest: the 2^32-tick period (268435 whole ms) is that of the
  32-bit value 0xFFFF_FFFF. On the device a 0 ms request gives 2^24 ticks, about
  1048 ms, as `SysTick.DeviceRoundTrip` states.
- SysTick.StartBusyWait: the loop's reads of CTRL come from the hardware. They are the
  `samples` argument, and a finite run that never shows COUNTFLAG ends as `StillPolling`
  rather than looping forever.
- SysTick.Handler: what a callback does is not modelled. The handler returns the callback
  it invoked, and the timer registers and the callback slot are taken to be unchanged by it. A callback that
  itself calls SysTick_SetCallBack, SysTick_Stop or SysTick_DeInit is not modelled.
- `volatile` access, interrupts arriving in the middle of a read-modify-write, and other
  concurrency are not modelled. Interrupts occur only between calls, as `Interrupt`
  entries of `SysTick.Run`.
- SysTick.Run: an `Interrupt` entry may appear in any state, also after Stop or DeInit
  and with TICKINT clear, although the hardware raises the SysTick exception only while
  ENABLE and TICKINT are set. `Run` over-approximates when interrupts occur, and the
  `SysTick.Run*` lemmas, `SysTick.FixedCallbackFires` and
  `SysTick.NothingInvokedBeforeSetCallBack` hold for every interleaving.
- `SysTick.h` is not part of this model: it only declares the services.

## Findings

| source | as written | input that shows it | evidently intended | confidence | as-written member | corrected member |
|---|---|---|---|---|---|---|
| ARM_Final_WS/ARM_Final_Project_Test/NVIC.c:112-129 | `Pri_Mask` is a `uint8`, so `~(0x07 << Pri_Bits_Pos)` loses everything above bit 7: it is 0x1F for lane 0 and 0xFF for lanes 1..3. `PRIn & Pri_Mask` then clears the whole word above bit 7, including the priority fields of the other IRQs in lanes 1..3. | PRI0 = 0xFFFF_FFFF, then `NVIC_SetPriorityIRQ(0, 0)`: the priorities of IRQs 1, 2 and 3 go from 7 to 0. Any other IRQ number clears its neighbours in lanes 1..3 in the same way. | A 32-bit mask that clears only the IRQ's own 3-bit field, so every other IRQ keeps its priority. | not executed | `Nvic.SetPriorityIrqNeighbourFields` (with `Nvic.NeighbourPriorityLost`) | `Nvic.SetPriorityIrqIntendedKeepsNeighbours` (with `Nvic.SetPriorityIrqIntended`) |
