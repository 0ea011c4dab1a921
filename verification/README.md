# MyceliumOS: a verified model

MyceliumOS is a small 32-bit kernel. This project models the parts of it that are
real state machines and proves what they keep over whole runs. Every component has
the same build: the object or arrays that the C code changes in place are a class or
arrays here, each method is tied to a function on plain values, and the theorems are
about those functions, over all inputs and all runs.

## What is modelled

**The xHCI keyboard driver** (`src/usb_kbd.c`). `UsbDriver` holds the enumeration
machine as functions from state to state: thirteen enumeration states, six kinds of
pending command, two retry counters, the slot-disable loop, the command ring and two
transfer rings. `UsbKeyboard.Driver` is the driver itself, its static variables and
arrays changed in place. Register reads, descriptor bytes, reports and events are
inputs and arbitrary. Two environments are used:

- `UsbSafety` assumes nothing about the controller: events may be stale, duplicated
  or invented. It bounds the whole enumeration (63 commands, 315 control transfers,
  thirteen endpoint-0 TRBs), shows that "ready" means the full sequence of requests
  was made, in order, for the slot and endpoint in use, and that ready and failed are
  both for good.
- `UsbController` assumes the rules of the xHCI specification 1.2: each command
  answered once and in order, each control transfer at most once, report transfers
  only for TRBs found by following the cycle bits. It shows that at most one request
  is outstanding and that `pending_command` names the command a completion answers,
  so the driver loses nothing by not looking at the completion's TRB pointer.

`UsbEndpointZero` adds the controller's position on the endpoint-0 ring: following the
cycle bits it reads exactly the TRBs of the request that is out. `UsbContexts` has the
context words that the driver writes, read back field by field. `UsbDevice` is the device
at the other end: its configuration, its protocol and what it is asked for, read from the
fields of the setup packets alone, and the packet size that it is addressed with.

`UsbProgress` tells how the enumeration ends. A controller that keeps the rules can bring
it to a standstill, and exactly which events do so is stated; from anywhere else a
device that answers well becomes a ready keyboard within eleven events, if and only if
the command ring, which never wraps, has room for the commands still to be sent.

`Rings` and `EventRing` are the transfer and event rings with their other side, over
any number of laps; `Descriptors` is the configuration-descriptor walk against a plain
list of descriptors; `HidReport` is the boot-report differ against a set-1 decoder.

**The terminal** (`src/vga.c`). `Framebuffer` has the pixel bytes, the drawing of one
cell, the full redraw and the overlapping pixel copy of the fast scroll, all against
one `Picture`. `Terminal` has the cell grid scrolled in place, the drawn cursor, the
batched redraw and text-mode video memory; `Screen.Run` shows that after any run of
public operations the display equals the picture of the cells with one underline at
the cursor, and that the cells are what the pure grid says; `PrintViews` shows that
the grid is the end of an unbounded page. `PageTables` builds the PAE tables and walks
them as section 4.4 of the Intel SDM, Volume 3A, describes.

**The shell and the line editor** (`src/cmd.c`, `src/kbd.c`, `src/lib.c`). `ShellArgs`
has the quote and escape automaton that packs its output, against a tokenizer without
a buffer, the counting automaton beside it, and for both what they answer on every line,
told by the characters of the line. `LineEditor` refines a zipper (text
left of the cursor, text right of it, and what is stale behind them). `History`
refines "the last sixteen", and `ScancodeQueue` a bounded FIFO with interrupts between
any two memory accesses of a dequeue. `Typing` joins the report differ and the editor:
what any sequence of USB reports does to the line. `Keyboard` adds the kernel's own keyboard
maps: a key types the character that the HID usage tables give it, and a typed line reaches
the shell.

**Input arbitration** (`src/kernel.c`). `InputLoop` composes the USB machine, the
scancode queue, the modifier flags and the PS/2 switch; `Kernel.Run` is the main loop on
the objects.

## What turned out not to hold

Each is proved with its exact condition, for all inputs.

- A report transfer that ends with an error code is dropped without queueing another
  report. The keyboard keeps calling itself ready, PS/2 stays off in both modes, and no
  report ever arrives again: `UsbController.ReportLoop`,
  `InputLoop.LockedOutAfterReportError`, and from boot `InputLoop.LockedOutFromBoot`.
  The lock-out that the main loop does exclude is the one after a failed transport:
  `InputLoop.NoLockOut`.
- The enumeration can come to a standstill that is neither ready nor failed: a refused
  Enable Slot or Configure Endpoint, a transfer error other than a transaction error, or
  a used-up command ring. Nothing is asked of the controller any more, and in native
  mode PS/2 stays off: `UsbProgress.StallsExactly`, `UsbProgress.StalledForever`,
  `InputLoop.LockedOutByStandstill`, `InputLoop.LockedOutByRefusedSlot`.
- Ctrl+L zeroes the indices but leaves the buffer, so completion brings the old text
  back: `LineEditor.ClearThenComplete`.
- Left and right Ctrl share a make code, as do left and right Alt, and the two Shifts
  share a flag. A release of one hides the other that is still held, and the flag stays
  wrong until the pair moves again: `HidReport.SharedFlagIsExact`,
  `HidReport.SharedFlagCanBeWrong`.
- The framebuffer mapping reaches the last byte exactly when size plus page offset is
  at most 64 MiB (`PageTables.FramebufferIsReached`), and an MMIO mapping is right
  exactly when its region starts in the first page of its 2 MiB
  (`PageTables.MmioIsRight`).
- The pre-check of the shell misses lines with too many arguments: it fires exactly when
  an argument beyond the tenth is opened by a plain character
  (`ShellArgs.PreCheckExactly`, `ShellArgs.PreCheckMissesExactly`; quoted arguments are
  the example, `ShellArgs.PreCheckMissesQuoted`). The parser refuses those lines itself.
  The other direction holds (`ShellArgs.PreCheckIsHarmless`).
- Make and break codes alternate exactly when no report repeats a mapped usage that
  changes (`HidReport.ReplayFromStart`).
- The two shrinking loops of the text geometry never run for a real screen
  (`Terminal.ConfigureGeometry` with `Terminal.Shrink`).

## Model

| member | source | states |
|---|---|---|
| Rings.TransferRing.Push | src/usb_kbd.c:427-442 | hands over the link and toggles the cycle at the last slot, writes the TRB, answers its slot; the whole new ring is given |
| Rings.ZeroRing | src/usb_kbd.c:861-870 | an endpoint ring is emptied in place, with its link back to slot 0 |
| Rings.PushAppends | src/usb_kbd.c:427-442 | a push appends one TRB to what the controller will read if and only if fewer than 63 were outstanding |
| Rings.FetchTakesOldest | src/usb_kbd.c:427-442 | following cycle bit and toggle-cycle link (section 4.9.2 of xHCI 1.2), the controller takes the oldest outstanding TRB, or nothing when there is none |
| Rings.BetweenIsExact | src/usb_kbd.c:427-442 | the two positions determine what is outstanding |
| Rings.RingIsFifo | src/usb_kbd.c:427-442 | over any run of pushes and fetches, any number of laps: taken TRBs are a prefix of the pushed ones and the rest is still outstanding |
| Rings.RunFromFresh | src/usb_kbd.c:444-482 | the same from a freshly initialised ring |
| EventRing.WriteAppends | src/usb_kbd.c:1291-1296 | an event written by the controller is delivered if and only if the ring was not full |
| EventRing.ConsumerSeesOldest | src/usb_kbd.c:1294-1296 | the slot under the index carries the driver's cycle bit exactly when an event waits, and it is the oldest one |
| EventRing.RunIsExactlyOnce | src/usb_kbd.c:1511-1518 | for every interleaving without overrun the events handled are the events written, once and in order; the cycle bit flips after every 256 events and never else |
| EventRing.Reader.Advance | src/usb_kbd.c:1511-1518 | the index steps on, wraps with a flip of the cycle bit, and is published |
| EventRing.Reader.Deliver | src/usb_kbd.c:1291-1296 | what a controller writes behind the waiting events, within the ring, waits in order |
| HidReport.KeyRoundTrip | src/usb_kbd.c:340-383 | no two mapped usages share a set-1 key: an independent inverse table gives the usage back |
| HidReport.UsageRoundTrip | src/usb_kbd.c:340-383 | the other direction: a key that stands for a usage is the key of that usage |
| HidReport.MappedExactly | src/usb_kbd.c:340-383 | which usages have a key: 0x04 to 0x31, 0x33 to 0x38, and, with the prefix, the arrows 0x4F to 0x52 |
| HidReport.KeysAreOrdinary | src/usb_kbd.c:340-383 | no mapped usage produces a modifier code, a break code or the E0 prefix |
| HidReport.Differ.EmitSet1 | src/usb_kbd.c:385-397 | appends the optional prefix and the make or break code, nothing for an unmapped usage |
| HidReport.Differ.ReportHasUsage | src/usb_kbd.c:399-404 | answers whether one of the six key bytes is the usage |
| HidReport.Differ.FeedBootReport | src/usb_kbd.c:1124-1155 | the bytes sent and the remembered report are those of the differ that ReplayFromStart and MappedExactly speak of |
| HidReport.ReplayKeys | src/usb_kbd.c:1132-1151 | replaying the bytes of one pass changes exactly the differing mapped keys, and alternates unless one of them is repeated |
| HidReport.ReplayModifiers | src/usb_kbd.c:1124-1131 | what the six handled modifier bits do to the three flags of a decoder, and to nothing else |
| HidReport.SharedFlagIsExact | src/usb_kbd.c:1125-1131 | after any sequence of reports from power-up a flag shared by a left and a right key is right if and only if the last move of the pair over the whole sequence is not a release with one of the two still held |
| HidReport.SharedFlagCanBeWrong | src/usb_kbd.c:1125-1131 | both Ctrl keys down, right one up: the flag is off with left Ctrl held |
| HidReport.ReplayReport | src/usb_kbd.c:1124-1155 | one report: decoder and differ agree on the keys down, the prefix flag is clear again, alternation holds if and only if nothing repeats |
| HidReport.ReplayFromStart | src/usb_kbd.c:1124-1155 | for every sequence of reports: a key is down after the replayed bytes if and only if its usage is among the key bytes of the last report and in the ranges that have a key; makes and breaks alternate if and only if no changing usage is repeated in a report; Ctrl, Shift and Alt are each right if and only if the last move of their pair hides no held key |
| Typing.ReportTypes | src/usb_kbd.c:1124-1155 | the bytes of one report, one scancode after the other, change the modifier flags first and then do what each newly pressed mapped usage means, in order; breaks do nothing |
| Typing.TypingFromStart | src/kbd.c:277-387 | for every sequence of reports the line, the history and the submitted lines end up as after exactly the actions that the presses of the reports mean under their modifiers |
| Typing.TypeBytes | src/kbd.c:435-437 | the editor fed byte by byte does what the typist does |
| Keyboard.UsageTypes | src/kbd.c:144-178 | with the kernel's two maps, every letter, digit, space and punctuation usage inserts its own character of the HID usage tables, shifted or not: the driver's codes and the editor's maps fit together |
| Keyboard.EditingUsages | src/kbd.c:338-371 | Enter, Backspace, Tab, Ctrl+L and Ctrl+C by their usages |
| Keyboard.ArrowUsages | src/kbd.c:297-334 | the four arrows by their usages, with and without Ctrl |
| Keyboard.RebootUsage | src/kbd.c:290-295 | the reset is asked for by exactly the key that types q, with Ctrl, Shift and Alt down |
| Keyboard.TypingSpells | src/usb_kbd.c:1124-1155 | from power-up, any sequence of key strokes with or without Shift puts exactly the characters of the strokes in at the cursor |
| Keyboard.TypingSubmits | src/kbd.c:118-129 | with Enter behind it the shell gets the whole line, and the next Up brings it back |
| Descriptors.ParseKeyboardEndpoint | src/usb_kbd.c:961-1045 | the loop on any 256 bytes terminates and answers what the recursive walk answers |
| Descriptors.WalkMeaning | src/usb_kbd.c:973-1044 | the walk from any point, with its flags, finds the first keyboard endpoint of the descriptor list or there is none |
| Descriptors.ParseFindsFirst | src/usb_kbd.c:961-1045 | success if and only if the list, cut at the first malformed length, has an interrupt-IN endpoint under a boot-keyboard interface; the first one is taken, with its own interface number |
| Descriptors.FirstIsUnique | src/usb_kbd.c:961-1045 | there is only one such answer |
| Descriptors.ChosenEndpointFits | src/usb_kbd.c:1056-1087 | endpoint, context index and packet size keep the later context writes inside the input context, for both context sizes |
| UsbDriver.WordRoundTrip | src/usb_kbd.c:912-922 | a command word read back by the controller gives the command and the slot that went in |
| UsbContexts.InterruptInterval | src/usb_kbd.c:513-532 | the loop finds the exponent of the polling interval, with both clamps |
| UsbContexts.IntervalMeaning | src/usb_kbd.c:513-532 | for slow devices it is the least power of two of microframes that reaches the wanted period, between 3 and 11, so neither clamp ever changes it; fast devices give it themselves, plus one, from 1 to 16 |
| UsbContexts.Contexts.ForAddress | src/usb_kbd.c:860-885 | every word of the input context, the device's entry in the slot array, and the output context cleared or kept |
| UsbContexts.Contexts.ForKeyboard | src/usb_kbd.c:1048-1070 | every word of the input context, with the endpoint's own context at its index |
| UsbContexts.AddressMeaning | src/usb_kbd.c:874-885 | reading the fields back by their bits (sections 6.2.2 and 6.2.3 of xHCI 1.2) gives the speed, the port and a control endpoint of that packet size whose ring starts at slot 0 with cycle 1 |
| UsbContexts.KeyboardMeaning | src/usb_kbd.c:1056-1070 | the same for the keyboard's interrupt-IN endpoint at its context index, with its interval and packet size |
| UsbKeyboard.Driver.constructor | src/usb_kbd.c:146-186 | power-up: nothing ready, nothing failed, no report remembered |
| UsbKeyboard.Driver.InitRings | src/usb_kbd.c:444-482 | all rings and contexts empty, all positions and cycles at the start, nothing awaited |
| UsbKeyboard.Driver.Init | src/usb_kbd.c:1157-1289 | the whole state after each outcome: controller not found (all but rings and endpoint forgotten), not running (rings emptied too), or running with the first connected port being reset |
| UsbKeyboard.Driver.ResetFirstConnectedPort | src/usb_kbd.c:740-768 | the first connected port is reset, or the transport fails |
| UsbKeyboard.Driver.StartPortReset | src/usb_kbd.c:688-726 | reset, new speed, and an Enable Slot command when the port came up enabled |
| UsbKeyboard.Driver.PushCommand | src/usb_kbd.c:414-425 | one TRB and one doorbell, or nothing at all when 63 commands were pushed |
| UsbKeyboard.Driver.ControlIn | src/usb_kbd.c:625-647 | three TRBs, one doorbell, the status TRB is awaited |
| UsbKeyboard.Driver.ControlOut | src/usb_kbd.c:649-675 | two or three TRBs, one doorbell, the status TRB is awaited |
| UsbKeyboard.Driver.QueueKeyboardReport | src/usb_kbd.c:1090-1098 | one report TRB, one doorbell, that TRB is awaited |
| UsbKeyboard.Driver.FailTransport | src/usb_kbd.c:770-778 | failed, not ready, idle, no slot, no pending command |
| UsbKeyboard.Driver.DisableSlotForRetry | src/usb_kbd.c:780-790 | a Disable Slot command, or a port reset when no slot is enabled |
| UsbKeyboard.Driver.RetrySelectedPort | src/usb_kbd.c:809-834 | counts the retry and disables the slot, or fails after three |
| UsbKeyboard.Driver.PrepareAddressDevice | src/usb_kbd.c:859-923 | endpoint-0 ring emptied, every word of the input context, the slot entry and the output context, state and command for the wanted kind of addressing |
| UsbKeyboard.Driver.PrepareConfigureKeyboardEndpoint | src/usb_kbd.c:1047-1088 | keyboard ring emptied, every word of the input context, state and Configure Endpoint command |
| UsbKeyboard.Driver.HandleFailedCommand | src/usb_kbd.c:1316-1357 | every way a command can fail |
| UsbKeyboard.Driver.HandleSuccessfulCommand | src/usb_kbd.c:1358-1393 | every way a command can succeed |
| UsbKeyboard.Driver.HandlePortStatusChange | src/usb_kbd.c:1397-1419 | the speed is read again; an enabled port after a reset gets its slot |
| UsbKeyboard.Driver.ControlTransferDone | src/usb_kbd.c:1441-1495 | the next request of the enumeration sequence; UsbDevice tells what each one does to the device, and the contexts of the two commands are written |
| UsbKeyboard.Driver.HandleTransferEvent | src/usb_kbd.c:1420-1509 | errors retry, awaited transfers go on, a report is fed and the next one queued, all else is ignored |
| UsbKeyboard.Driver.HandleEvent | src/usb_kbd.c:1297-1510 | one event acts as the state machine says, and every event that leads to an Address Device or a Configure Endpoint command leaves the right words in the input context |
| UsbKeyboard.Driver.Poll | src/usb_kbd.c:1291-1519 | the loop ends with a quiet controller, has handled exactly the waiting events, in order, and published its position |
| UsbKeyboard.Driver.UsbReady | src/usb_kbd.c:1525-1528 | answers readiness |
| UsbSafety.HandledKeeps | src/usb_kbd.c:1291-1510 | every event of any controller keeps the invariant of the whole driver: control state, history of doorbells, rings |
| UsbSafety.RunKeeps | src/usb_kbd.c:1291-1519 | so does every run |
| UsbSafety.StartKeeps | src/usb_kbd.c:740-768 | initialisation establishes it |
| UsbSafety.StartsAtFirstPort | src/usb_kbd.c:740-768 | the port that is reset is the first connected one; with none connected the transport fails |
| UsbSafety.EnumerationIsBounded | src/usb_kbd.c:414-442 | any controller, any events: at most 63 commands, link slot 63 untouched, at most five control transfers a command, endpoint-0 ring within thirteen slots, both retry counters at most three |
| UsbSafety.ReadyMeansEnumerated | src/usb_kbd.c:1358-1495 | ready only after address, device descriptor, configuration header, configuration, set configuration, boot protocol and configure endpoint, as the last seven requests, for the slot and endpoint in use |
| UsbSafety.ReadyIsExact | src/usb_kbd.c:1525-1528 | the four conditions of readiness come to one: the last enumeration state |
| UsbSafety.ReadyStays | src/usb_kbd.c:1291-1528 | no event of any controller ends readiness or changes slot or endpoint |
| UsbSafety.FailedStays | src/usb_kbd.c:770-778 | after a failure no event rings a doorbell, sends a scancode or revives the transport |
| UsbSafety.OutcomeIsFinal | src/usb_kbd.c:1291-1532 | over any run ready stays ready, and failed stays failed and silent |
| UsbDevice.ReadyMeansConfigured | src/usb_kbd.c:1478-1493 | whatever the device was before: when the keyboard is ready, the setup packets of all requests so far have set the configuration that its descriptor names, and the boot protocol of its interface |
| UsbDevice.ConfiguredFromStart | src/usb_kbd.c:740-1519 | the same from power-up, over any run of any controller |
| UsbDevice.ReadyMeansDescribed | src/usb_kbd.c:1358-1476 | before that it was asked for 18 bytes of the device descriptor, for 8 bytes of the configuration, and for at most 256 bytes of it, in this order, by the fields of the setup packets |
| UsbDevice.AddressedAsks | src/usb_kbd.c:1363-1383 | while the port is enabled, an accepted address command is followed by a request for 8 or 18 bytes of the device descriptor |
| UsbDevice.ConfigurationAsked | src/usb_kbd.c:1470-1476 | the whole configuration is asked for with its wTotalLength, cut to 256 |
| UsbDevice.ConfigurationSet | src/usb_kbd.c:1477-1486 | if the configuration has a boot keyboard, the first one is chosen and the device gets the value of its byte 5 as configuration; if not, the transport fails without a request |
| UsbDevice.SlotTaken | src/usb_kbd.c:1358-1362 | the slot of an Enable Slot completion is the one addressed, with BSR first from speed 4 on |
| UsbDevice.StartPacket | src/usb_kbd.c:497-503 | the controller reads from the input context a packet size of 64 at speed 3, of 512 from speed 4 on, and of 8 else |
| UsbDevice.PacketRetries | src/usb_kbd.c:1316-1345 | after each refused address command it reads 64, 32 and 16 in turn, except at low speed; the fourth refusal is final |
| UsbDevice.PacketLearned | src/usb_kbd.c:1443-1455 | after the first eight bytes of the device descriptor it reads the packet size they give, if that is 8, 16, 32 or 64 |
| UsbDevice.PacketStays | src/usb_kbd.c:1291-1519 | no other event changes it |
| UsbDevice.TransferRetries | src/usb_kbd.c:809-834 | a transaction error gives the slot up and counts; the fourth one fails the transport |
| UsbDevice.RetriesForgiven | src/usb_kbd.c:1443-1457 | both reads of the device descriptor set that count back to zero, and no other good transfer does |
| UsbController.AtMostOneOutstanding | src/usb_kbd.c:1298-1495 | one command or one control transfer, never both |
| UsbController.CompletionIsAttributed | src/usb_kbd.c:1298-1302 | when a completion arrives, the pending command is the oldest one without an answer |
| UsbController.MatchStep | src/usb_kbd.c:1291-1510 | every event a rule-keeping controller may send keeps driver and controller matched |
| UsbController.Attribution | src/usb_kbd.c:1298-1419 | from power-up, over any such run: at most one outstanding request, and every completion is attributed rightly |
| UsbController.ReportEvent | src/usb_kbd.c:1496-1505 | a good report event delivers the report and leaves exactly one report TRB outstanding; a bad one leaves none |
| UsbController.ReportLoop | src/usb_kbd.c:1427-1505 | every report is delivered in order up to the first bad report event; the driver still listens if and only if there was none, and calls itself ready either way |
| UsbController.DeafLoop | src/usb_kbd.c:1427-1440 | after a bad report event no report is ever delivered again |
| UsbController.BecomesListening | src/usb_kbd.c:1390-1393 | whichever event makes the keyboard ready leaves exactly one report TRB for the controller to find, the one the driver waits for |
| UsbEndpointZero.ReadsWhatIsOut | src/usb_kbd.c:625-675 | following the cycle bits of endpoint 0 the controller reads the setup, data and status TRBs of the request that is out, all of them and nothing else, with types, lengths, directions, buffer and interrupt bit as section 6.4.1.2 of xHCI 1.2 wants them |
| UsbEndpointZero.ControlOutAsks | src/usb_kbd.c:649-675 | a write request of any length, with or without data, puts exactly the TRBs on the ring that ask for it |
| UsbEndpointZero.Ep0Step | src/usb_kbd.c:1298-1495 | every event that a controller keeping the rules may send keeps that true, with the controller's position taken from each accepted address command |
| UsbEndpointZero.ControllerReadsRequests | src/usb_kbd.c:625-675 | from power-up, over any such run: while a control transfer is out, those TRBs ask for the last request rung, and the last of them is the one awaited |
| UsbProgress.StalledForever | src/usb_kbd.c:1291-1519 | with nothing out, neither ready nor failed nor waiting for its port, the driver asks nothing and becomes nothing ever again, whatever a controller keeping the rules sends |
| UsbProgress.CommandIsSilent | src/usb_kbd.c:1298-1393 | which command completions end without a further doorbell, of all codes, states and inputs |
| UsbProgress.TransferIsSilent | src/usb_kbd.c:1420-1495 | which transfer events of a control transfer do |
| UsbProgress.StallsExactly | src/usb_kbd.c:1291-1510 | an event brings about a standstill if and only if it is one of four dropped answers, or it calls for a command and all 63 are used |
| UsbProgress.HelpedToTheEnd | src/usb_kbd.c:1291-1519 | from every other state, good answers end in a ready and listening keyboard if and only if the command ring has room for the commands still to be sent, and otherwise in a standstill; at most eleven answers are needed |
| UsbProgress.KeyboardComesUp | src/usb_kbd.c:740-1519 | from power-up a helpful device becomes a ready keyboard within eleven events, with a report TRB for the controller to fill |
| UsbProgress.RefusedSlotStalls | src/usb_kbd.c:1316-1357 | one refused Enable Slot after power-up is a standstill |
| ScancodeQueue.ViewAppends | src/kbd.c:254-259 | a store appends to the ring's view if and only if fewer than 63 bytes were stored |
| ScancodeQueue.Queue.Enqueue | src/kbd.c:254-259 | stores the byte, or drops it exactly at 63 stored |
| ScancodeQueue.Queue.Interrupt | src/kbd.c:268-275 | what one interrupt stores and what it drops |
| ScancodeQueue.Queue.Dequeue | src/kbd.c:261-266 | with arbitrary interrupts before each of its six memory accesses: takes the oldest byte, or finds nothing exactly when nothing was stored by its first look; drops are decided as if the byte were still there |
| ScancodeQueue.Session | src/kbd.c:254-266 | over any script the bytes taken are the oldest accepted ones, in order, and the rest is stored |
| ScancodeQueue.Queue.Count | src/kbd.c:245-248 | the exact number stored |
| ScancodeQueue.Queue.Clear | src/kbd.c:229-238 | empties the queue, whatever an interrupt stores between the two index stores |
| InputLoop.Kernel.ChooseKeyboard | src/kernel.c:199-205 | the switch as boot leaves it, in every mode |
| InputLoop.Kernel.SetPs2Enabled | src/kbd.c:233-239 | sets the switch, and empties the queue when it is turned off |
| InputLoop.Kernel.InitLegacy | src/kbd.c:224-231 | PS/2 on, the three modifier flags off, the prefix flag kept, queue empty |
| InputLoop.Kernel.Iterate | src/kernel.c:262-281 | one turn of the main loop: poll, fall back, select |
| InputLoop.Kernel.Turn | src/kernel.c:262-281 | a turn together with what the controller writes before it: all of it is handled |
| InputLoop.Kernel.Run | src/kernel.c:262-281 | on the objects, over any turns: the loop invariant holds after the last one, so exactly one keyboard is in charge |
| InputLoop.IterationKeeps | src/kernel.c:262-281 | after every turn exactly one keyboard is in charge; readiness and failure never lapse |
| InputLoop.AbsentBoots | src/kernel.c:235-250 | a start that finds no controller, or none that runs, leaves PS/2 on in every mode |
| InputLoop.NoLockOut | src/kernel.c:235-281 | from boot, every mode, any controller: a failed transport leaves PS/2 on; in automatic mode PS/2 is on exactly while the USB keyboard is not ready; in native mode exactly without a working controller |
| InputLoop.LockedOutAfterReportError | src/usb_kbd.c:1427-1440 | the lock-out that remains, in automatic and native mode, over any turns of the loop: the USB keyboard in charge delivers every report up to the first bad report event and none after it, PS/2 stays off and the keyboard calls itself ready throughout, and it still listens if and only if there was no bad event |
| InputLoop.LockedOutFromBoot | src/kernel.c:235-281 | it happens from boot in both modes: a helpful device comes up in the first turn, a bad report event that the controller may send follows, and whatever turns come after it, no report arrives and PS/2 is off |
| InputLoop.LockedOutByStandstill | src/kernel.c:262-281 | in native mode, over any turns, a standstill leaves PS/2 off and no USB keyboard |
| InputLoop.LockedOutByRefusedSlot | src/kernel.c:235-281 | a refused Enable Slot at boot in native mode leaves no keyboard at all, in that turn and every later one |
| ShellArgs.AppendChar | src/cmd.c:720-726 | writes a character and a terminator, or fails exactly when the buffer is full |
| ShellArgs.ParseChar | src/cmd.c:737-790 | one character changes buffer, positions and flags as one step of the tokenizer, and fails as it does or when the buffer is full |
| ShellArgs.ParseArgs | src/cmd.c:728-805 | equals the tokenizer with a full-buffer check; the arguments lie packed one behind the other and every pointer is where its argument begins |
| ShellArgs.OutputNeverOutruns | src/cmd.c:720-805 | the output is never longer than the input read |
| ShellArgs.ParsedIsTokenized | src/cmd.c:720-805 | for lines up to 255 characters overflow cannot happen: the parser is the tokenizer |
| ShellArgs.ArgumentReadsBack | src/cmd.c:728-805 | the string at each pointer is the argument, for arguments without NUL |
| ShellArgs.QuotingRoundTrip | src/cmd.c:728-805 | quoting any list and tokenizing it gives the list back, if and only if it has at most ten entries, with or without a blank at the end |
| ShellArgs.QuoteAndParse | src/cmd.c:728-805 | the same through the buffer, pointers and terminators |
| ShellArgs.TokenizedExactly | src/cmd.c:728-805 | for every line, from its characters alone: too many arguments if more than ten open before the first bare pipe; else a parse error if there is such a pipe, or the line ends in an unescaped backslash, or its unescaped quotes are odd in number; else the arguments, ended by unquoted blanks and tabs and by nothing else, with their characters |
| ShellArgs.AcceptedExactly | src/cmd.c:728-805 | so a line is accepted if and only if at most ten arguments open, it has no bare pipe, no unescaped backslash at its end and an even number of unescaped quotes |
| ShellArgs.HasExtraArgOverLimit | src/cmd.c:807-846 | the loop is the counting automaton |
| ShellArgs.ExtraMeansRejected | src/cmd.c:807-846 | from any pair of matching states, what the counter refuses the tokenizer refuses |
| ShellArgs.PreCheckIsHarmless | src/cmd.c:914-930 | pre-check and parser together accept exactly what the tokenizer accepts |
| ShellArgs.PreCheckMissesQuoted | src/cmd.c:839-843 | the pre-check never fires on quoted arguments, however many |
| ShellArgs.PreCheckExactly | src/cmd.c:807-846 | for every line: the pre-check fires if and only if one of the arguments beyond the tenth is opened by a plain character |
| ShellArgs.TooManyExactly | src/cmd.c:728-805 | for every line: the parser gives up for the number of arguments if and only if more than ten open before the first bare pipe; an accepted line has as many arguments as openings |
| ShellArgs.PreCheckMissesExactly | src/cmd.c:839-843 | for every line: it has too many arguments for the parser and gets past the pre-check if and only if more than ten open before its first bare pipe and none beyond the tenth is opened by a plain character |
| ShellArgs.Judge | src/cmd.c:908-932 | a line up to 255 characters is accepted if and only if it meets the four conditions of AcceptedExactly, and then its arguments lie packed in the buffer |
| History.LogIsCollapsed | src/kbd.c:76-94 | skipping empty lines and repeats of the newest entry is collapsing adjacent repeats of the non-empty lines |
| History.RowsAreLastSixteen | src/kbd.c:76-94 | after any submissions the rows are the last sixteen of that log |
| History.UpAfterSubmit | src/kbd.c:76-105 | Up right after any non-empty submission loads the submitted line |
| History.BrowsingMeaning | src/kbd.c:76-116 | after any submissions with a non-empty last line, the k-th Up loads the k-th newest of the last sixteen logged lines, one more Up loads nothing, and Down from the newest row loads the empty line |
| History.UpDownRoundTrip | src/kbd.c:96-116 | Down takes back Up and Up takes back Down, position and loaded line |
| History.Rows.Add | src/kbd.c:76-94 | records in the array, with the shift when it is full, and puts the position behind the newest row, from where BrowsingMeaning starts |
| History.Rows.Older | src/kbd.c:96-105 | the position goes back and the line at it is loaded |
| History.Rows.Newer | src/kbd.c:107-116 | the position goes forward and the line at it, or the empty line, is loaded |
| LineEditor.Editor.Strlen | src/lib.c:416-426 | the length of the string in the buffer |
| LineEditor.Editor.Strcpy | src/lib.c:517-524 | copies the text and its terminator |
| LineEditor.Editor.RemoveChar | src/lib.c:540-549 | removes one character of the buffer in place |
| LineEditor.Editor.InsertChar | src/kbd.c:417-432 | refines insertion left of the zipper's cursor, up to 254 characters |
| LineEditor.Editor.DeleteWordBack | src/kbd.c:355-365 | refines deletion of blanks and then a word left of the cursor |
| LineEditor.Editor.WordLeftMove | src/kbd.c:299-303 | refines the move over blanks and then a word to the left |
| LineEditor.Editor.WordRightMove | src/kbd.c:304-308 | refines the move over blanks and then a word to the right |
| LineEditor.Editor.LoadLine | src/kbd.c:68-74 | the line is the loaded text with the cursor at its end |
| LineEditor.Editor.RunBuffer | src/kbd.c:118-129 | the text goes to history and shell unless it is empty; the line is empty |
| LineEditor.Editor.ClearLine | src/kbd.c:343-348 | the indices go to 0 and the text becomes stale |
| LineEditor.Editor.HasPrefix | src/lib.c:364-370 | the bounded comparison decides whether the buffer is a prefix of a name |
| LineEditor.Editor.Autocomplete | src/cmd.c:848-904 | completes if and only if the whole line is a plain word left of the cursor and prefix of exactly one name; else nothing is written, and the names it is a prefix of are listed, in order, if and only if there are several |
| LineEditor.Editor.TryAutocomplete | src/kbd.c:131-142 | the line after completion, or measured again |
| LineEditor.Editor.Apply | src/kbd.c:297-387 | every editing action refines its meaning on the zipper and the history |
| LineEditor.Editor.ProcessSet1 | src/kbd.c:277-387 | a scancode sets the flags or applies the action it stands for; Ctrl, Shift, Alt and Q ask for a reset first, and the key is handled all the same if the machine goes on |
| LineEditor.Editor.AsciiInput | src/kbd.c:389-433 | a plain character applies the action it stands for and leaves the flags |
| LineEditor.AppliedKeeps | src/kbd.c:277-387 | every action keeps the line within 254 characters, NUL-free and terminated, and the history position in range |
| LineEditor.SessionStaysGood | src/kbd.c:277-433 | so does every sequence of actions |
| LineEditor.MovesKeepText | src/kbd.c:299-326 | cursor moves never change the text |
| LineEditor.DeleteWordIsWordLeft | src/kbd.c:299-359 | the word deletion removes exactly what the word move crosses |
| LineEditor.WordStartMeaning | src/kbd.c:299-303 | what is crossed is blanks and before them the longest run of non-blanks |
| LineEditor.WordEndMeaning | src/kbd.c:304-308 | to the right it is blanks and then the longest run of non-blanks |
| LineEditor.CharacterKey | src/kbd.c:372-386 | a scancode puts the character of its map in at the cursor, the shifted one with Shift, up to 254 characters |
| LineEditor.EnterKey | src/kbd.c:338-341 | 0x1C submits the text unless it is empty, and empties the line |
| LineEditor.BackspaceKey | src/kbd.c:355-365 | 0x0E takes one character left of the cursor, with Ctrl the blanks and the word there |
| LineEditor.ArrowKey | src/kbd.c:299-326 | E0 4B and E0 4D move the cursor by one character left and right, with Ctrl by a word, and keep the text |
| LineEditor.HistoryKey | src/kbd.c:325-332 | E0 48 loads the older line and E0 50 the newer one, with the cursor at its end |
| LineEditor.ControlKey | src/kbd.c:336-353 | Ctrl+L empties the line and leaves the text stale; Ctrl+C and every break leave it alone |
| LineEditor.AsciiCharacter | src/kbd.c:389-433 | what each plain character does to the line |
| LineEditor.UpAfterEnter | src/kbd.c:76-129 | Up after Enter brings the submitted text back into the line |
| LineEditor.CompletionKey | src/cmd.c:848-904 | 0x0F replaces a plain line by the only name that begins with it |
| LineEditor.NoCompletion | src/cmd.c:848-904 | with no such name, or two, the line stays |
| LineEditor.BackspaceUndoesInsert | src/kbd.c:355-432 | Backspace after an insertion restores text and cursor |
| LineEditor.ClearThenComplete | src/kbd.c:343-348 | after Ctrl+L the completion key brings back exactly what was in the buffer; the line stays empty if and only if it was empty |
| Framebuffer.Memory.StorePixel | src/vga.c:219-232 | writes the two to four bytes of one pixel and no other byte |
| Framebuffer.Memory.DrawCell | src/vga.c:365-433 | writes exactly the bytes of one cell: each of its 128 pixels, put together from its bytes, is the character's colour where the font has a dot (rows 4 to 11, leftmost dot in the highest bit) or under the underline (rows 14 and 15), and black elsewhere |
| Framebuffer.DotIsBit | src/vga.c:389-393 | the bit tested for a column is the column's own, from the left |
| Framebuffer.Memory.CoherentShows | src/vga.c:365-433 | a right picture shows the dots of every cell, and the underline under the cursor alone |
| Framebuffer.Memory.Paint | src/vga.c:365-433 | over a right picture, drawing one cell gives the right picture of the changed cells, with the underline moved |
| Framebuffer.Memory.Redraw | src/vga.c:502-510 | whatever was there, the terminal shows the cells |
| Framebuffer.Memory.ClearAll | src/vga.c:234-253 | black memory shows blanks |
| Framebuffer.Memory.ShiftLines | src/vga.c:435-484 | the overlapping copy moves every scanline of the terminal up by sixteen, blackens the rest and touches nothing outside |
| Framebuffer.Memory.FastScroll | src/vga.c:435-484 | from a right picture the copy gives what scrolling the cells and drawing them all again gives; a drawn cursor would move up with them |
| Framebuffer.Memory.ScrolledPicture | src/vga.c:435-484 | the picture of the scrolled cells is the picture sixteen scanlines lower, or black |
| Terminal.ConfigureGeometry | src/vga.c:528-549 | 80 to 140 columns and 25 to 70 rows whose cells fit their memory; the grid fits the screen if and only if the screen is at least as large as text mode, and then is the largest allowed |
| Terminal.Shrink | src/vga.c:543-548 | ends with a grid that fits its memory and leaves alone one that fits already |
| Terminal.Screen.WriteCell | src/vga.c:486-500 | one cell in memory, and on the display unless a redraw is pending |
| Terminal.Screen.EraseCursor | src/vga.c:512-524 | the picture without underline |
| Terminal.Screen.ShowCursor | src/vga.c:996-1015 | the picture with one underline, at the cursor; in text mode the register holds its index |
| Terminal.Screen.ScrollLines | src/vga.c:932-972 | any number of lines: cells and display move up in place, blanks in the current colour come from below |
| Terminal.Screen.PutByte | src/vga.c:880-923 | one byte of a message acts on the cells as on the grid, and the display keeps up or waits |
| Terminal.Screen.Print | src/vga.c:874-930 | a whole message: the cells are the grid's and the display shows them with the cursor |
| Terminal.Screen.SettledDisplays | src/vga.c:486-500 | between operations every cell of the grid is on the display, pixel by pixel or as its two bytes of video memory |
| Terminal.Screen.PrintedDisplays | src/vga.c:874-930 | one printable character: it stands where the cursor was, in the current colour, one row higher if that scrolled, and the cursor stands behind it |
| Terminal.Screen.SetCursorPos | src/vga.c:978-986 | the cursor is clamped into the grid and drawn there alone |
| Terminal.Screen.SetColor | src/vga.c:1053-1055 | changes nothing shown |
| Terminal.Screen.ClearScreen | src/vga.c:1017-1039 | from any display state: blanks, cursor at the origin, display right |
| Terminal.Screen.Run | src/vga.c:874-1055 | any run of the public operations: the display shows the cells with one underline at the cursor, in framebuffer and in text mode, and the cells follow the pure grid |
| Terminal.PutFits | src/vga.c:880-923 | the cursor is inside the grid after every byte, and never more than one row below before the scroll |
| Terminal.MoveMeaning | src/vga.c:978-986 | the cursor goes to the nearest place inside the grid |
| Terminal.ClearMeaning | src/vga.c:1017-1055 | a cleared screen is spaces in the current colour with the cursor in the first cell; a new colour changes nothing shown |
| Terminal.PutViews | src/vga.c:880-923 | one byte on the scrolling grid shows what it does on the unbounded page |
| Terminal.PrintViews | src/vga.c:874-972 | any message on the grid shows the last rows of the page it is written on; what scrolled away is never changed |
| Terminal.EveryGridIsAView | src/vga.c:874-972 | every grid can be the start of that |
| PageTables.EntryRoundTrip | src/vga.c:270-352 | a present entry gives back the page it was made for |
| PageTables.Pae.MapFramebuffer | src/vga.c:270-314 | what the loops leave in all six tables, and the virtual address |
| PageTables.WalkIsPicture | src/vga.c:270-314 | the walk of those tables is: identity below 64 MiB, the framebuffer's pages at their base, a fault elsewhere |
| PageTables.FramebufferIsReached | src/vga.c:270-314 | every byte of the framebuffer is mapped if and only if size plus page offset is at most 64 MiB |
| PageTables.Pae.MapMmioRegion | src/vga.c:316-352 | accepts or refuses as the code does, and what it leaves in the tables |
| PageTables.WalkWindow | src/vga.c:337-346 | inside the rewritten 2 MiB windows the walk counts pages from the window's start |
| PageTables.WalkOutside | src/vga.c:316-352 | outside them no translation changes |
| PageTables.MmioIsRight | src/vga.c:337-346 | every byte of the region is mapped right if and only if the region starts in the first page of its 2 MiB |
| PageTables.RelocatedIsFixed | src/usb_kbd.c:253-292 | of all power-of-two sizes exactly those up to 16 MiB are accepted, always at the same address |
| PageTables.RelocatedBarIsMapped | src/usb_kbd.c:279-300 | for every accepted size the mapping succeeds, maps each address of the BAR to itself and leaves every earlier translation unchanged |
| PageTables.Pae.MapBoth | src/vga.c:270-352 | the two calls in order, on the arrays |

## Left out

- Ports, MMIO, PCI, interrupt controller, timers, sound and assembly: register reads are inputs and doorbells are entries of the `issued` history.
- BIOS hand-off, controller reset, timed waits and scratchpads of `usb_kbd_init`: one input says how far the start gets, and the first register values after a port reset are inputs.
- More than 254 root ports: with `max_ports` at 255 the 8-bit counter of `reset_first_connected_port` never ends; the model takes a list of ports.
- A second `usb_kbd_init` after the rings have turned: it would write the link TRB with the old cycle bit before resetting it; the kernel calls it once.
- The packing of setup packets and event TRBs: they keep their fields. Contexts are words whose fields do not overlap, so the bit-or of the code is a sum, and their size is fixed for a machine.
- The branch of a failed address command that gives up for want of a packet size: retries one to three always have one, so it is unreachable and has no counterpart.
- The font, the pixel values of the sixteen colours and the names of commands are parameters; assumed are only that the space glyph is empty, that black is 0, and that names are NUL-free and at most 254 characters. The editor takes any keyboard maps of 128 entries; the kernel's own are those of `Keyboard`.
- The screen effects of editing (printing from the cursor, moving it back), and the clock and prompt that Ctrl+L prints.
- Rows of the history are strings, not rows of a character array, and `strdif` on them is inequality.
- Main-context draining of the keyboard controller racing with the interrupt: two producers share the tail index without protection, so the FIFO claim is about interrupts against a dequeue.
- PS/2 modifiers with an E0 prefix: they leave the prefix flag set; prefix alignment is claimed for the USB stream only.
- The two parallel arrays of characters and colours are one array of cells, the page tables of one kind are one array of rows of 512, and the framebuffer is an array of scanlines.
- Framebuffers whose pixels are not two, three or four bytes: they are never accepted.
- `scroll` called from outside with a cursor on the screen: nothing calls it, and `FastScroll` says what it would leave.
- Debug output, panic screens, scaled text, multiboot tags, echo expansion, hex dumps and the other shell commands: no state worth a theorem.
- Framebuffer.Memory.ClearAll: black is assumed to be stored as zero bytes, which the colour cache gives for colour 0.
- ShellArgs.ArgumentReadsBack: an argument with NUL cannot be read back as a C string, so it asks for arguments without NUL.
