# libCEC: a verified model of its stateful parts

libCEC drives the HDMI consumer-electronics bus (HDMI 1.4, Supplement 1, "CEC"). This project models
the parts of it that hold state or encode data, and proves what they keep over all inputs, all runs
and all interleavings. `dafny verify dfyconfig.toml` checks everything.

How it is laid out, one subject after another:

- **Active source** (section 13.2 of the supplement). `Bus.dfy` holds the routing state of the sixteen
  devices as one value, and closed forms of the steps on it. `DeviceMap.dfy` is the device map with one
  flag per device; its mutually recursive methods (a power change notifies the handler of a Samsung TV,
  which activates a source, which changes power) terminate, keep at most one flag set, and compute the
  closed forms. `BusRuns.dfy` proves what all runs keep, and `BusLaws.dfy` what single steps do to
  single devices, in values.
- **Registration** (section 10.2.1). `Allocation.dfy`: first fit of logical addresses against an oracle
  of poll answers. `Registration.dfy`: owners of addresses, statuses and the mask of the adapter, for
  one call and for runs over any number of clients. `RegistrationLaws.dfy`: what one registration does
  to addresses, mask and source, in values. `ClientRegistry.dfy`: the objects and their loops.
- **Physical addresses.** `PhysicalAddresses.dfy`: the address derived from an HDMI port, its
  fallbacks, and the refresh.
- **Key presses** (section 13.13). `KeyPress.dfy` and `KeyMachine.dfy`: the machine and its methods.
  `KeyRuns.dfy`: its invariant and press cycles. `KeyFates.dfy`: what becomes of a button that went
  down. `KeyPolls.dfy`: deadlines. `KeyLaws.dfy`: single calls in numbers, and auto-repeat. `CallbackQueue.dfy`: the bounded queue to the callback thread.
  `DoubleTap.dfy`: the filter in front of the client. `KeyDelivery.dfy`: all of these together, over
  all runs of the machine and of the queue. `KeyInputs.dfy`: inputs at which something gets lost.
- **Concurrency.** `Handshake.dfy`: who frees a callback that is waited for. `HandlerUse.dfy`: the use
  count of a command handler. `InputQueue.dfy`: the queue of received commands.
- **Codecs and order.** `Command.dfy` and `CommandText.dfy`: frames and text. `AdapterNames.dfy`:
  numbering adapters. `ConnectTimeout.dfy`: one timeout shared over adapters.

Where the source updates fields, the model is a class whose methods are proved against functions on
values; the lemmas are about these functions.

## What the proofs found

Each of these is a lemma with an exact condition or a concrete input.

- `SetDeviceStatus` to "present", without the guard its callers have, leaves the adapter believing
  the wrong thing exactly when the device is our active source (`BusRuns.UnguardedPresent`).
- A client that unregistered keeps its list of addresses. If another client gets one of them and the
  first registers again, the second silently stops owning it (`Registration.StaleListTakesAnAddress`,
  with the exact conditions, in terms of the inputs, in `OthersKeepTheirs` and `MaskAfterRegistering`).
- A registration can leave devices that libCEC handles without an owner: through a stale list, even if
  it succeeds, or by failing after it took an address. `Registration.LeaksExactlyWhen` says exactly
  when, `FailureLeaksOnce` and `StaleListTakesAnAddress` give inputs. No run gets such an address to a
  client before a step resets it (`Registration.LeakLasts`).
- A TV-type client that is its own base device moves one level down with every refresh
  (`PhysicalAddresses.RefreshTwice`, `OwnBaseDrifts`). Other clients own handled devices only, and
  reports from those are ignored (src/libcec/implementations/CECCommandHandler.cpp:902).
- A held combo key with a combo timeout of zero is never cleared by polls (`KeyPolls.StuckComboKey`,
  `StuckFromRest`).
- A combo key of "unknown", documented as "disabled", turns a lone SELECT, PAUSE or PLAY into another
  key when the combo timeout is not zero (`KeyPolls.LonePress`, `LonePressChanged`).
- A comment in `CallbackAddKey` promises that no press is left without a release. There are three ways
  to leave one, and `KeyDelivery.LeftPressedExactly` says exactly when it happens. The machine forgets
  the button: a poll gives up on one that was pressed twice (`KeyInputs.HeldKeyIsNeverReleased`), a
  release arrives under auto-repeat, the state is reset, or a combo takes its place; or it still holds
  it. The callback queue is full and refuses the release (`KeyInputs.RefusedRelease`), or still holds
  that. Or the filter drops it: it takes a release without a duration for a press
  (`KeyInputs.PressWithoutRelease`), and a press with a duration, as a Samsung TV's handler reports it,
  for a release (`KeyInputs.ReleaseAfterFixedDuration`).
- The double-tap filter compares with the last press of any key: a press that repeats nothing can be
  dropped (`DoubleTap.DroppedPress`, `KeyInputs.DroppedWithoutDouble`).
- One `GetHandler` without `MarkHandlerReady`, as in `IsLibCECActiveSource` on the active source if
  libCEC handles it, keeps the handler of that device from ever being replaced again
  (`HandlerUse.LeakBlocksReplacement`, `LeakFromTheStart`).
- A callback that is waited for, and that the full queue refuses, is never freed
  (`Handshake.RefusedIsNeverFreed`).
- The text that the log shows for a command reads back with both addresses 0, because of its prefix
  (`CommandText.LoggedFormReadsBack`, `LoggedFormGoesWrong`).
- Adapters of two types can share a name (`AdapterNames.TypesCollide`, `TwoAdaptersOneName`).
- A connect timeout below one millisecond per adapter gives the first a share of 0, which
  `OpenConnection` reads as 1000 ms (`ConnectTimeout.FirstShareIsZero`).

## Model

| member | source | states |
|---|---|---|
| DeviceMap.Devices.SetPowerStatus | src/libcec/devices/CECBusDevice.cpp:707-729 | Through the re-entrant handler and back, a power change computes `PowerChanged`, a form without recursion; at most one device is the source afterwards, and the recursion terminates |
| DeviceMap.Devices.OnPowerStatusChanged | src/libcec/implementations/ANCommandHandler.cpp:72-102 | A mirroring TV's power change reaches only the handled active source: standby with it, or the source activated again |
| DeviceMap.Devices.OnImageViewOnSent | src/libcec/devices/CECBusDevice.cpp:731-742 | The TV's status becomes "waking" unless it is up, and no handler hears of it |
| DeviceMap.Devices.MarkAsActiveSource | src/libcec/devices/CECBusDevice.cpp:1105-1143 | Exactly this device is the source afterwards, among sixteen independent flags, and the adapter heard of loser and winner in this order |
| DeviceMap.Devices.MarkOthersInactive | src/libcec/devices/CECBusDevice.cpp:1130-1135 | The loop leaves one flag, and tells the adapter once if the loser was a handled device |
| DeviceMap.Devices.MarkAsInactiveSource | src/libcec/devices/CECBusDevice.cpp:1145-1166 | Only this flag falls; the adapter is told exactly when it was set on a handled device |
| DeviceMap.Devices.ActivateSource | src/libcec/devices/CECBusDevice.cpp:1058-1088 | Marks the source, and at delay 0 lets the base handler transmit |
| DeviceMap.Devices.PowerOnTv | src/libcec/implementations/CECCommandHandler.cpp:928-951 | Waking the TV notifies its handler again, unless it is on; this edge of the recursion ends too |
| DeviceMap.Devices.HandlerActivateSource | src/libcec/implementations/CECCommandHandler.cpp:1301-1382 | Acts only for a handled active source; wakes a present TV, and lets the device transmit where switching is allowed |
| DeviceMap.HandlerRunIs | src/libcec/implementations/CECCommandHandler.cpp:1326-1337 | With the device on and the TV up, as after marking, waking the TV does nothing |
| DeviceMap.Devices.TransmitPendingActiveSourceCommands | src/libcec/devices/CECBusDevice.cpp:1256-1262 | A retry, at which the TV can be down, and waking it can re-enter |
| DeviceMap.Devices.TransmitActiveSource | src/libcec/devices/CECBusDevice.cpp:1168-1202 | "Sent" is recorded exactly for a powered active source with a valid address |
| DeviceMap.Devices.SetDeviceStatus | src/libcec/devices/CECBusDevice.cpp:904-957 | Every new status with its effect on power, source, adapter and the broadcast device |
| DeviceMap.Devices.ResetDeviceStatus | src/libcec/devices/CECBusDevice.cpp:960-979 | Power and status unknown, and the device is no source |
| DeviceMap.Devices.TransmitPoll | src/libcec/devices/CECBusDevice.cpp:981-1002 | A handled device is not polled and keeps its status |
| DeviceMap.Devices.GetStatus | src/libcec/devices/CECBusDevice.cpp:870-902 | When a poll is made, and that the returned status is the recorded one |
| DeviceMap.Devices.AfterCommand | src/libcec/devices/CECBusDevice.cpp:260-289 | A command makes its sender present, unless it is handled |
| DeviceMap.Devices.TryLogicalAddress | src/libcec/CECProcessor.cpp:221-236 | An address is ours afterwards exactly when it was neither present nor handled and nobody answered |
| DeviceMap.Devices.SetStreamPath | src/libcec/devices/CECBusDevice.cpp:1280-1312 | The addressed device becomes the source, or the one at the old address stops being it |
| DeviceMap.Devices.SetActiveRoute | src/libcec/devices/CECBusDevice.cpp:1264-1278 | A handled device at the new route is activated, once |
| DeviceMap.Devices.GetActiveSource | src/libcec/devices/CECDeviceMap.cpp:219-227 | The scan over the flags returns the one source there is |
| DeviceMap.Devices.GetDeviceByPhysicalAddress | src/libcec/devices/CECDeviceMap.cpp:133-145 | The first device at the address |
| DeviceMap.Devices.SetDevicePhysicalAddress | src/libcec/CECClient.cpp:1590-1633 | The loop over the devices of a client moves them all and reactivates the source among them |
| BusRuns.MarkedFacts | src/libcec/devices/CECBusDevice.cpp:1105-1143 | After marking, the device is the source and on, the TV is up, statuses and addresses are as before, and the adapter stays in step |
| BusRuns.PowerNeverMovesTheSource | src/libcec/devices/CECBusDevice.cpp:707-729 | No power report, through any handler, moves the source or tells the adapter anything |
| BusRuns.HandlerRunFacts | src/libcec/implementations/CECCommandHandler.cpp:1301-1382 | The base handler moves no source and tells the adapter nothing, even when it wakes the TV at a retry |
| BusRuns.HandoverAlternates | src/libcec/devices/CECBusDevice.cpp:1105-1143 | A handover between any two devices keeps the adapter's values alternating |
| BusRuns.UnmarkedInStep | src/libcec/devices/CECBusDevice.cpp:1145-1166 | Taking the source down keeps the adapter in step |
| BusRuns.ResetInStep | src/libcec/devices/CECBusDevice.cpp:960-979 | A reset keeps the adapter in step, and the device is no source |
| BusRuns.StatusSetInStep | src/libcec/devices/CECBusDevice.cpp:904-957 | So does every status change with the guard that its callers have |
| BusRuns.UnguardedPresent | src/libcec/devices/CECBusDevice.cpp:939-944 | Without the guard, exactly when the device is not our active source |
| BusRuns.UnguardedPresentGoesWrong | src/libcec/devices/CECBusDevice.cpp:939-944 | A reachable state in which the unguarded change goes wrong |
| BusRuns.StreamedSource | src/libcec/devices/CECBusDevice.cpp:1280-1312 | Where a stream path request leaves the source |
| BusRuns.RoutedSource | src/libcec/devices/CECBusDevice.cpp:1264-1278 | A routing change makes only our devices the source |
| BusRuns.MovedKeepsTheSource | src/libcec/CECClient.cpp:1590-1633 | Moving a client keeps the source, with one exact exception |
| BusRuns.MovedMovesItsDevices | src/libcec/CECClient.cpp:1590-1633 | Every owned device, and no other, has the new address |
| BusRuns.StepKeepsInStep | src/libcec/devices/CECBusDevice.cpp:904-1312 | All fifteen steps keep the adapter in step |
| BusRuns.RunKeepsInStep | src/libcec/CECProcessor.cpp:352-356 | In every run, the adapter was last told "active source" exactly when the source is a handled device; it never hears a value twice in a row |
| BusRuns.RunFromTheStart | src/libcec/CECProcessor.cpp:352-356 | The same for every run from the first state, for every handler |
| BusLaws.MirroredPower | src/libcec/implementations/ANCommandHandler.cpp:72-102 | A Samsung TV from 2016 on takes our source to standby with it, switches it on with it, and leaves it alone when its own power becomes unknown; which devices count as "sent" then |
| BusLaws.PlainPower | src/libcec/devices/CECBusDevice.cpp:707-729 | Any other TV that changes its power only makes "sent" fall, any other device changes nothing but itself |
| BusLaws.StandbyTakesTheSource | src/libcec/implementations/ANCommandHandler.cpp:72-102 | From the first state: address 4 is tried and marked, a TV of 2020 goes to standby and on again, and 4 with it |
| BusLaws.MarkedPower | src/libcec/devices/CECBusDevice.cpp:1105-1143 | The powers after marking: those of the device's own power change, and a TV that is up |
| BusLaws.MarkingTells | src/libcec/devices/CECBusDevice.cpp:1105-1143 | The adapter hears nothing about a source that stays, else of the loss of one of ours and then of the gain of one |
| BusLaws.UnmarkingTells | src/libcec/devices/CECBusDevice.cpp:1145-1166 | Taking down a source tells the adapter once, with the reason, if it is ours, and changes nothing else |
| BusLaws.ActivationSends | src/libcec/devices/CECBusDevice.cpp:1058-1088 | "Active source" is sent exactly by an activation without delay, of a device of ours with a valid address, if switching is allowed |
| BusLaws.WakingTheTv | src/libcec/implementations/CECCommandHandler.cpp:928-951 | Waking a mirroring TV switches the source on and has it send |
| BusLaws.RetryWakesTheTv | src/libcec/implementations/CECCommandHandler.cpp:1301-1382 | Power and "sent" after a retry, whether it wakes the TV or not |
| BusLaws.HandlerSetsOn | src/libcec/implementations/CECCommandHandler.cpp:1301-1382 | The first run of the handler switches the source on, and when it is "sent" afterwards |
| BusLaws.ResetForgets | src/libcec/devices/CECBusDevice.cpp:960-979 | What a reset forgets, and with which reason the adapter hears of a lost source |
| BusLaws.StatusIsSet | src/libcec/devices/CECBusDevice.cpp:904-957 | Each new status: what happens to power, source and adapter, and to no other device |
| BusLaws.PollTells | src/libcec/devices/CECBusDevice.cpp:981-1002 | A device that answers is present, one that does not is absent, and one of ours stays ours |
| BusLaws.PollIsNeeded | src/libcec/devices/CECBusDevice.cpp:870-902 | When a status is polled for: unknown, forced, or a TV that was absent |
| BusLaws.TryingTakes | src/libcec/CECProcessor.cpp:221-236 | An address nobody answers at becomes ours, one that answers is present |
| BusLaws.FirstAtIs | src/libcec/devices/CECDeviceMap.cpp:133-145 | The device found at a physical address is there, and no smaller address is |
| BusLaws.StreamingFinds | src/libcec/devices/CECBusDevice.cpp:1280-1312 | A stream path request to a device marks it, and it sends if it is ours |
| BusLaws.StreamingFindsNone | src/libcec/devices/CECBusDevice.cpp:1280-1312 | One to no device takes the source at the old address down, and nothing is sent |
| BusLaws.RoutingActivates | src/libcec/devices/CECBusDevice.cpp:1264-1278 | A routing change activates a device of ours, unless it is the source already and the receiver has sent |
| BusLaws.MovingTells | src/libcec/CECClient.cpp:1590-1633 | A client that moves with the source tells the adapter of loss and gain and sends from its new address, depending on what is initialised |
| BusLaws.MovingIsSilent | src/libcec/CECClient.cpp:1590-1633 | Without the source it moves without a word |
| Allocation.SupportedTypes | src/libcec/CECClient.cpp:370-397 | The types of a client: each supported or replaced type once, nothing else |
| Allocation.TypesOfAddresses | src/libcec/CECTypeUtils.h:48-72 | The type of each address, in numbers |
| Allocation.OrderTypes | src/libcec/CECClient.cpp:450-506 | For each type but the TV's, the addresses tried are exactly those of the type, in ascending order |
| Allocation.FirstIsSmallest | src/libcec/CECClient.cpp:450-506 | So the first free one that is tried is the smallest free address of the type |
| Allocation.FirstFitFinds | src/libcec/CECClient.cpp:450-506 | Trying in turn finds the first address that was free at the start, or all were taken and now show it |
| Allocation.AllocateIsFair | src/libcec/CECClient.cpp:399-448 | Types do not disturb each other: each gets what it deserved before any was tried |
| Allocation.AllocationIsFirstFit | src/libcec/CECClient.cpp:399-448 | Success exactly when no type is exhausted; per type the smallest free address of that type, 0 for the TV without a poll; the primary is the first type's; on failure the addresses of the type are all taken |
| Registration.MaskPrimary | src/libcec/CECProcessor.cpp:1086-1095 | The primary of the mask is the smallest owned address |
| Registration.UnregisteredFacts | src/libcec/CECProcessor.cpp:1005-1046 | Unregistering frees the listed addresses, resets them, and brings the mask up to date |
| Registration.WithAddressesFacts | src/libcec/CECProcessor.cpp:767-817 | Owners, list, statuses and mask after an allocation, successful or not |
| Registration.RegistersExactlyWhen | src/libcec/CECProcessor.cpp:851-993 | A registration that gets beyond the first checks returns true exactly when the adapter has a source address, a type is asked for and none is exhausted; `OnRegister` cannot fail then |
| Registration.RegisteredKeeps | src/libcec/CECProcessor.cpp:851-993 | Successful or not, every owned address stays a handled device and the adapter in step |
| Registration.MaskAfterRegistering | src/libcec/CECProcessor.cpp:917-947 | The mask is the owned addresses, except after one that must fail for its types, of an unregistered client whose stale list names one of them |
| Registration.OthersKeepTheirs | src/libcec/CECProcessor.cpp:767-817 | Exactly when, by the inputs, another client keeps an address: first fit takes none from an owner, a stale list and a request for the TV's address do |
| Registration.LeaksExactlyWhen | src/libcec/CECProcessor.cpp:767-947 | Exactly when, by the inputs, every handled device still has an owner after a registration, successful or not |
| Registration.FailureLeaksOnce | src/libcec/CECProcessor.cpp:942-947 | A playback device with an audio system, where there is one already: address 4 leaks |
| Registration.StepAndLeaks | src/libcec/CECProcessor.cpp:851-1046 | A leaked address stays leaked over every step that does not reset it |
| Registration.LeakLasts | src/libcec/CECProcessor.cpp:851-1046 | Over every run that does not reset it, it stays handled, has no owner, and is free for nobody |
| Registration.StepKeepsRegistry | src/libcec/CECProcessor.cpp:851-1046 | Registering, unregistering and bus traffic keep owned addresses handled and held by registered clients |
| Registration.RunKeepsRegistry | src/libcec/CECProcessor.cpp:851-1046 | So does every run, over any number of clients; the address "unregistered" is never owned |
| Registration.RunKeepsTheMask | src/libcec/CECProcessor.cpp:767-1046 | The mask is the owned addresses throughout a run without stale lists |
| Registration.RunFromTheStart | src/libcec/CECProcessor.cpp:767-1095 | Both, for every run from the first state, of any clients and any TV, and the primary of the mask is the smallest owned address, or none exactly when none is owned |
| Registration.OneClientKeepsTheMask | src/libcec/CECProcessor.cpp:767-1046 | For a single client that is every run |
| Registration.GetsTheFirst | src/libcec/CECClient.cpp:482-495 | A playback device gets address 4 when that is free |
| Registration.StaleListTakesAnAddress | src/libcec/CECProcessor.cpp:774-783 | Four calls after which a registered client no longer owns its address |
| RegistrationLaws.WithoutSource | src/libcec/CECProcessor.cpp:864-885 | Without a source address in the adapter a registration fails, after a registered client lost what it owned |
| RegistrationLaws.RegisteredOwnsItsAddresses | src/libcec/CECProcessor.cpp:767-817 | A client that was registered owns exactly what it lists; others keep what it did not list before |
| RegistrationLaws.RegisteredIsPlaced | src/libcec/CECProcessor.cpp:796-809 | Its devices, and no others, have its physical address, if that is valid |
| RegistrationLaws.RegisteredClient | src/libcec/CECProcessor.cpp:851-993 | Its flags say whether it worked, and its slots hold the types asked for |
| RegistrationLaws.MaskAfterSuccess | src/libcec/CECProcessor.cpp:767-817 | The mask has exactly the owned addresses, the smallest first, if the adapter takes it |
| RegistrationLaws.MaskAfterFailure | src/libcec/CECProcessor.cpp:942-947 | After a failure it has those that were owned before |
| RegistrationLaws.UnregisteringTells | src/libcec/CECProcessor.cpp:1005-1046 | Unregistering the source tells the adapter once, for that reason; unregistering anything else tells it nothing |
| RegistrationLaws.TypesAskedFor | src/libcec/CECClient.cpp:370-397 | Which types are asked for: with a Panasonic TV, playback in place of recording |
| RegistrationLaws.FirstSlotFirst | src/libcec/CECClient.cpp:370-397 | The first slot stays first, and so decides about the primary address |
| ClientRegistry.CecClient.Add | include/cectypes.h:1292-1302 | The first empty slot takes the type |
| ClientRegistry.CecClient.SetSupportedDeviceTypes | src/libcec/CECClient.cpp:370-397 | The loop computes the supported types |
| ClientRegistry.CecClient.AllocateLogicalAddressRecordingDevice | src/libcec/CECClient.cpp:450-463 | First fit over 1, 2, 9 |
| ClientRegistry.CecClient.AllocateLogicalAddressTuner | src/libcec/CECClient.cpp:465-480 | First fit over 3, 6, 7, 10 |
| ClientRegistry.CecClient.AllocateLogicalAddressPlaybackDevice | src/libcec/CECClient.cpp:482-495 | First fit over 4, 8, 11 |
| ClientRegistry.CecClient.AllocateLogicalAddressAudioSystem | src/libcec/CECClient.cpp:497-506 | Address 5 or none |
| ClientRegistry.CecClient.AllocateLogicalAddresses | src/libcec/CECClient.cpp:399-448 | The loop over the slots computes `Allocate`, with its early returns |
| ClientRegistry.Processor.GetLogicalAddresses | src/libcec/CECProcessor.cpp:1086-1095 | The loop over the keys yields them with the smallest as primary |
| ClientRegistry.Processor.UnregisterClient | src/libcec/CECProcessor.cpp:1005-1046 | Computes `Unregistered` on owners, devices, mask and client |
| ClientRegistry.Processor.AllocateLogicalAddresses | src/libcec/CECProcessor.cpp:767-817 | Computes `WithAddresses` |
| ClientRegistry.CecClient.OnRegister | src/libcec/CECClient.cpp:113-156 | Its result, and that it initialises the client exactly when there is a device |
| ClientRegistry.Processor.RegisterClient | src/libcec/CECProcessor.cpp:851-993 | Computes `Registered`, with all its ways out |
| PhysicalAddresses.FromPortIsBelow | src/libcec/CECClient.cpp:158-181 | The derived address is the device right below the base |
| PhysicalAddresses.FromPortAdds | src/libcec/CECClient.cpp:158-181 | On each level the nibble that is added is the port |
| PhysicalAddresses.PortsDiffer | src/libcec/CECClient.cpp:158-181 | Two ports of a device are two addresses exactly when there is a level below it |
| PhysicalAddresses.PortSetChooses | src/libcec/CECClient.cpp:183-229 | When setting a port does nothing, when it only stores it, and otherwise which address is taken: derived, from the EEPROM, or 1000 |
| PhysicalAddresses.RefreshChooses | src/libcec/CECClient.cpp:271-300 | Only a report of the base device, for a port from 1 to 15, moves the client, and where to |
| PhysicalAddresses.PortSetSettles | src/libcec/CECClient.cpp:183-229 | Setting a port leaves a valid address on all devices of the client, and the source where it was |
| PhysicalAddresses.RefreshCorrectsAnyFallback | src/libcec/CECClient.cpp:271-300 | After any fallback, a refresh reaches the address derived from what the base reported, for all devices; a second changes nothing |
| PhysicalAddresses.RefreshTwice | src/libcec/CECClient.cpp:271-300 | Exactly when a second refresh changes nothing |
| PhysicalAddresses.OwnBaseDrifts | src/libcec/CECClient.cpp:183-300 | A TV-type client as its own base, from setting its port: 1000, 1100, 1110 |
| PhysicalAddresses.PortClient.GetPhysicalAddressFromPort | src/libcec/CECClient.cpp:158-181 | Computes the derived address, invalid when the base has none |
| PhysicalAddresses.PortClient.SetHDMIPort | src/libcec/CECClient.cpp:183-229 | Computes `PortSet`; refuses ports outside 1 to 15 |
| PhysicalAddresses.PortClient.RefreshPhysicalAddress | src/libcec/CECClient.cpp:271-300 | Computes `Refreshed` |
| PhysicalAddresses.PortClient.SetPhysicalAddress | src/libcec/CECClient.cpp:351-368 | Changes nothing for the address it has, otherwise moves all devices |
| KeyMachine.KeyState.AddKeyRelease | src/libcec/CECClient.cpp:1136-1180 | Computes `Lift`: what is cleared and which release is queued |
| KeyMachine.KeyState.AddKey | src/libcec/CECClient.cpp:1182-1282 | Computes `Press`: combos, repeats, timers, and what is queued |
| KeyMachine.KeyState.CheckKeypressTimeout | src/libcec/CECClient.cpp:1295-1380 | Computes `Poll`, wrapping 64-bit subtractions included |
| KeyMachine.KeyState.ResetKeypressState | src/libcec/CECClient.cpp:1382-1393 | Back to rest, nothing queued |
| KeyLaws.PressHolds | src/libcec/CECClient.cpp:1182-1282 | Which button a press leaves held, and its timers, in numbers: combos, the third press that sets the repeat, 500 ms or what is configured, 5000 ms once releases are known |
| KeyLaws.PressQueues | src/libcec/CECClient.cpp:1182-1282 | Exactly what a press queues: the release of another button, the press, or neither |
| KeyLaws.LiftLetsGo | src/libcec/CECClient.cpp:1136-1180 | Exactly when a button is let go, and when that is queued |
| KeyLaws.PollOfComboKey | src/libcec/CECClient.cpp:1311-1323 | The combo key is let go from its timeout on |
| KeyLaws.PollOfOtherKey | src/libcec/CECClient.cpp:1325-1351 | Release, repeat or neither, and the delay after a repeat |
| KeyLaws.NextRepeat | src/libcec/CECClient.cpp:1344-1351 | After a repeat, the next comes exactly when the repeat rate has passed |
| KeyLaws.FirstRepeat | src/libcec/CECClient.cpp:1229-1246 | The first repeat comes exactly when the repeat delay has passed since the first of three presses |
| KeyLaws.RepeatsOnTime | src/libcec/CECClient.cpp:1295-1380 | Over any polls on time, a button repeats at its time and after every rate, all of them and nothing else |
| KeyLaws.HeldKeyRepeats | src/libcec/CECClient.cpp:1182-1380 | The same from rest: the k-th repeat at the first press, plus the delay, plus k times the rate |
| KeyLaws.RepeatsAtItsRate | src/libcec/CECClient.cpp:1344-1351 | A key held since 1000, at a rate of 200: repeats at 2000 and 2200 |
| KeyRuns.StepKeepsSound | src/libcec/CECClient.cpp:1136-1393 | Every call keeps the timers in order, whatever the configuration does |
| KeyRuns.RunKeepsSound | src/libcec/CECClient.cpp:1136-1393 | So does every run along the clock |
| KeyRuns.TimersMeanHeld | src/libcec/CECClient.cpp:1136-1393 | After every run from rest, each timer and the counter are zero exactly when no button is held; a set repeat time means three presses |
| KeyRuns.RunAccepted | src/libcec/CECClient.cpp:1136-1380 | Every run obeys the rules of press cycles: a release or repeat only for the held key, with the time since it went down |
| KeyRuns.ReleaseEndsItsPress | src/libcec/CECClient.cpp:1136-1380 | A release is for the button that last went down, and the only one since |
| KeyFates.EndingShows | src/libcec/CECClient.cpp:1136-1393 | Each call keeps the held button, lets it go, or forgets it for one of four causes, exactly by the guards of its branches |
| KeyFates.FateOfHeld | src/libcec/CECClient.cpp:1136-1393 | Over all runs a held button is released before another goes down exactly when the calls let it go |
| KeyFates.FateOfDown | src/libcec/CECClient.cpp:1136-1393 | The same for every button that goes down in a run |
| KeyPolls.PollHitsTheDeadlines | src/libcec/CECClient.cpp:1295-1380 | A poll acts exactly when a deadline has come; its delay is from 1 to 1000 and runs past no deadline |
| KeyPolls.RepeatedKeysAreNotReleased | src/libcec/CECClient.cpp:1325-1351 | A key that repeats gets no synthesised release |
| KeyPolls.PollClears | src/libcec/CECClient.cpp:1311-1343 | Exactly when a poll clears the button |
| KeyPolls.HeldUntilTheDeadline | src/libcec/CECClient.cpp:1295-1380 | A button stays held over any polls exactly until one reaches its deadline |
| KeyPolls.BoundedHold | src/libcec/CECClient.cpp:1295-1380 | With polls on time, it is cleared less than a second after its deadline, and without a repeat at it |
| KeyPolls.StuckComboKey | src/libcec/CECClient.cpp:1311-1343 | The combo key with timeout zero stays held |
| KeyPolls.StuckFromRest | src/libcec/CECClient.cpp:1311-1343 | One press from rest gets there |
| KeyPolls.LonePress | src/libcec/CECClient.cpp:1196-1217 | Exactly which single presses are queued as they are |
| KeyPolls.LonePressChanged | src/libcec/CECClient.cpp:1196-1217 | SELECT becomes EXIT with combos "disabled" |
| KeyPolls.CheckClients | src/libcec/LibCEC.cpp:446-457 | The loop polls all clients and returns the shortest delay |
| KeyPolls.ShortestDelay | src/libcec/LibCEC.cpp:446-457 | The shortest delay runs past no deadline of any client |
| DoubleTap.KeyCallback.CallbackAddKey | src/libcec/CECClient.cpp:1886-1918 | Computes the filter's state, and what is delivered |
| DoubleTap.FilteredTwice | src/libcec/CECClient.cpp:1886-1918 | Filtering twice is filtering once |
| DoubleTap.DroppedExactly | src/libcec/CECClient.cpp:1886-1918 | Exactly which key presses are dropped, by what got through before |
| DoubleTap.FirstReleaseGetsThrough | src/libcec/CECClient.cpp:1886-1918 | The first release after a forwarded press of its key, over any interleaving, gets through unless it has no duration, is of the last key forwarded, and comes too soon after the last press |
| DoubleTap.PressesAreApart | src/libcec/CECClient.cpp:1886-1918 | Forwarded presses of a key with no other key between are a timeout apart |
| DoubleTap.StateIsHistory | src/libcec/CECClient.cpp:1886-1918 | The state is the last key, the last press of any key, and the last release since, of what was forwarded |
| DoubleTap.DroppedPress | src/libcec/CECClient.cpp:1886-1918 | A dropped press repeats its key exactly when the last forwarded press was of that key |
| CallbackQueue.SyncedBuffer.Push | src/libcec/platform/util/buffer.h:76-86 | Appends, or refuses when 100 entries wait |
| CallbackQueue.SyncedBuffer.Pop | src/libcec/platform/util/buffer.h:88-104 | Takes the first entry, if there is one |
| CallbackQueue.OldestIsTaken | src/libcec/platform/util/buffer.h:88-104 | The oldest entry is taken, and heard then |
| CallbackQueue.RunKeepsOrder | src/libcec/CECClient.cpp:1780-1838 | In every run key presses are heard in order, each once, before those that wait |
| CallbackQueue.HeardExactly | src/libcec/CECClient.cpp:1780-1838 | A key press is heard exactly unless it was refused by a full queue or still waits |
| KeyDelivery.LostExactly | src/libcec/CECClient.cpp:1785-1918 | Exactly which key presses the client never gets: refused, waiting, or dropped by the filter, for any events and any run of the queue |
| KeyDelivery.DownIsReleasedExactly | src/libcec/CECClient.cpp:1136-1393 | In every run from rest, exactly which buttons that go down get a release before the next one does |
| KeyDelivery.LeftPressedExactly | src/libcec/CECClient.cpp:1136-1918 | In every run of machine and queue, exactly which buttons that go down the client never sees released |
| KeyDelivery.ReleaseIsLostExactly | src/libcec/CECClient.cpp:1136-1918 | In every run, a release of a press that the client got, with nothing of a duration between them, is lost exactly when the queue does not hand it on, or it has no duration and comes too soon |
| KeyDelivery.PlainReleaseIsLostExactly | src/libcec/CECClient.cpp:1136-1918 | With auto-repeat off and presses without a duration that is so for every press and release |
| KeyInputs.PressWithoutRelease | src/libcec/CECClient.cpp:1898-1902 | Any key pressed and released in one millisecond: the client gets the press and no release |
| KeyInputs.ThatReleaseIsTooShort | src/libcec/CECClient.cpp:1898-1902 | It is the case that the exact condition names, with a queue that refuses nothing |
| KeyInputs.HeldKeyIsNeverReleased | src/libcec/CECClient.cpp:1325-1343 | Four calls after which the client got two presses of a key and no release of it was ever queued |
| KeyInputs.RefusedRelease | src/libcec/CECClient.cpp:1785-1793 | Any press and release of a key with a hundred log messages between them: the queue refuses the release |
| KeyInputs.ReleaseAfterFixedDuration | src/libcec/implementations/ANCommandHandler.cpp:125-145 | A run in which a report of fixed duration makes the filter drop the real release |
| KeyInputs.DroppedWithoutDouble | src/libcec/CECClient.cpp:1886-1918 | A run in which the filter drops a press that repeats nothing |
| Handshake.CallbackWrap.Result | src/libcec/CECClient.h:143-152 | Makes the move `WaitEnds` of the protocol: result, flag, and whether the waiter frees |
| Handshake.CallbackWrap.Report | src/libcec/CECClient.h:154-162 | Makes the move `Reports`: the result is stored, and whether the caller frees |
| Handshake.RunAgrees | src/libcec/CECClient.cpp:1805-1884 | What both sides agree on in every interleaving |
| Handshake.ExactlyOneFrees | src/libcec/CECClient.cpp:1805-1884 | When both are done exactly one freed the call: the waiter, with the result, exactly when the report came before the end of the wait; else it returns 0 |
| Handshake.RefusedIsNeverFreed | src/libcec/CECClient.cpp:1805-1830 | Without the callback thread, no run of the waiter frees the call |
| Handshake.NoUseAfterFree | src/libcec/CECClient.cpp:1805-1884 | No move of any run touches a freed call |
| HandlerUse.Guard.MarkBusy | src/libcec/devices/CECBusDevice.cpp:1427-1431 | Opens a bracket and counts it |
| HandlerUse.Guard.MarkReady | src/libcec/devices/CECBusDevice.cpp:1433-1438 | Closes one |
| HandlerUse.Guard.BeginReplace | src/libcec/devices/CECBusDevice.cpp:169-251 | Swaps the handler only when nobody uses it, in a bracket of its own |
| HandlerUse.StepCounted | src/libcec/devices/CECBusDevice.cpp:169-258 | The handler changes only when the swapping thread holds the only bracket |
| HandlerUse.RunCounted | src/libcec/devices/CECBusDevice.cpp:169-258 | In every run the count is that of the open brackets, and each still sees the handler it found |
| HandlerUse.LeakBlocksReplacement | src/libcec/CECClient.cpp:1742-1753 | After one unclosed use no run ever swaps the handler of that device |
| HandlerUse.LeakFromTheStart | src/libcec/CECClient.cpp:1742-1753 | A first use that is not closed gets there |
| HandlerUse.ReplaceGoesAhead | src/libcec/devices/CECBusDevice.cpp:169-251 | A replacement happens exactly when no bracket is open, the vendor is new and there is a handler for it; handler and vendor change together |
| InputQueue.InputBuffer.Push | src/libcec/CECInputBuffer.h:59-73 | Which queue takes a command, and that data is announced |
| InputQueue.InputBuffer.Pop | src/libcec/CECInputBuffer.h:75-90 | The TV's queue first, and the flag afterwards |
| InputQueue.InputBuffer.Broadcast | src/libcec/CECInputBuffer.h:52-57 | Wakes the consumer without data |
| InputQueue.PushAppends | src/libcec/CECInputBuffer.h:59-73 | A command is taken exactly while fewer than 100 of its kind wait, and goes behind them |
| InputQueue.PopTakes | src/libcec/CECInputBuffer.h:75-90 | The oldest of the TV goes first, and data stays announced exactly while some is left |
| InputQueue.RunKeepsSorted | src/libcec/CECInputBuffer.h:52-90 | In every run the queues hold what belongs in them, and data is announced |
| InputQueue.RunConserves | src/libcec/CECInputBuffer.h:52-90 | What was accepted is what was popped and what is queued, in order, per queue |
| InputQueue.TvGoesFirst | src/libcec/CECInputBuffer.h:75-90 | Nothing else is popped while a command of the TV waits |
| InputQueue.NoLostWakeUp | src/libcec/CECInputBuffer.h:75-90 | A sleeper with data queued wakes and gets some |
| Command.Packet.PushBack | include/cectypes.h:1074-1078 | Appends, or ignores what is past 64 |
| Command.Packet.At | include/cectypes.h:1050-1050 | The byte, or 0 behind the end |
| Command.Packet.Clear | include/cectypes.h:1083-1087 | Empties the packet |
| Command.Packet.Shift | include/cectypes.h:1056-1068 | In place, drops bytes from the front |
| Command.CecCommand.PushBack | include/cectypes.h:1198-1212 | Addresses, then opcode, then parameters |
| Command.CecCommand.PushArray | include/cectypes.h:1266-1270 | The left fold of PushBack |
| Command.CecCommand.Serialize | include/cectypes.h:1153-1172 | Exactly the frame at the start of the buffer and nothing else touched, or -1 and nothing written, and when |
| Command.PushedParts | include/cectypes.h:1198-1212 | Which command any bytes make, parameters cut at 64 |
| Command.FrameIs | include/cectypes.h:1153-1172 | The header is 16 times the initiator plus the destination; opcode and parameters follow |
| Command.ImageViewOn | include/cectypes.h:1153-1212 | 40 04 is an image view on from 4 to the TV, both ways |
| Command.BytesRoundTrip | include/cectypes.h:1153-1212 | Bytes pushed into a cleared command serialise back to themselves; they fit a frame exactly up to 16 |
| Command.CommandRoundTrip | include/cectypes.h:1153-1212 | A command's frame makes that command |
| Command.ClearedLooksLikeAPoll | include/cectypes.h:1153-1172 | A cleared command serialises like the byte FF |
| CommandText.HexDigitValues | src/libcec/LibCEC.cpp:699-701 | The sixteen digits in both cases |
| CommandText.DigitsSnoc | src/libcec/LibCEC.cpp:699-701 | Digits of any number are read in base 16 |
| CommandText.SameNumber | src/libcec/LibCEC.cpp:699-701 | Case, prefix, space and plus make no difference, nor does what follows the digits |
| CommandText.Negated | src/libcec/LibCEC.cpp:699-701 | A minus wraps around, so that the token is no byte |
| CommandText.PrintedExample | src/libcec/CECTypeUtils.h:797-807 | 4f:36:ab, printed and read |
| CommandText.TokensJoin | src/libcec/LibCEC.cpp:693-703 | Tokens are what the colons separate |
| CommandText.NextToken | src/libcec/LibCEC.cpp:693-703 | A round of the loop cuts off the first token |
| CommandText.CommandFromString | src/libcec/LibCEC.cpp:686-706 | For any text, the left fold of PushBack over its tokens that are at most FF |
| CommandText.ToString | src/libcec/CECTypeUtils.h:797-807 | The loop prints the prefix, the addresses and the bytes |
| CommandText.TextRoundTrip | src/libcec/CECTypeUtils.h:797-807 | The printed form without its prefix reads back as the same command |
| CommandText.TextWithPrefix | src/libcec/LibCEC.cpp:686-706 | With its prefix, the addresses read back as 0 |
| CommandText.LoggedFormReadsBack | src/libcec/CECTypeUtils.h:797-807 | So it reads back right exactly for commands from 0 to 0 |
| CommandText.LoggedFormGoesWrong | src/libcec/CECTypeUtils.h:797-807 | A command from 4 that reads back as one from 0 |
| AdapterNames.LessIs | src/libcec/adapter/AdapterFactory.cpp:128-130 | The first character that differs decides, and a proper prefix is less |
| AdapterNames.OneOrTwo | src/libcec/adapter/AdapterFactory.cpp:92-136 | One adapter of a type has the bare name; two have numbers 1 and 2 by their paths |
| AdapterNames.NamesDifferWithinType | src/libcec/adapter/AdapterFactory.cpp:104-136 | Names are distinct within a type |
| AdapterNames.TypesCollide | src/libcec/adapter/AdapterFactory.cpp:92-102 | Names of two types of one base name collide exactly when both are single or both are not |
| AdapterNames.TwoAdaptersOneName | src/libcec/adapter/AdapterFactory.cpp:92-102 | Two adapters that are both called HDMI |
| AdapterNames.OrderOfDetectionIsIrrelevant | src/libcec/adapter/AdapterFactory.cpp:104-136 | What AssignAdapterNames gives the same adapters, with distinct paths, detected in another order: each has the same name |
| AdapterNames.GroupNameIsName | src/libcec/adapter/AdapterFactory.cpp:128-134 | The position after sorting is the number of adapters of the type with a smaller path |
| AdapterNames.GroupByType | src/libcec/adapter/AdapterFactory.cpp:113-115 | Each type has one group, with exactly its adapters |
| AdapterNames.SortByPath | src/libcec/adapter/AdapterFactory.cpp:128-130 | A permutation in path order |
| AdapterNames.AssignAdapterNames | src/libcec/adapter/AdapterFactory.cpp:111-136 | In place: distinct within a type for any paths, and 1 + the rank, or the bare name, for distinct paths |
| ConnectTimeout.SharesAreFair | src/libcec/LibCEC.cpp:105-122 | With a millisecond per adapter, nobody is skipped, no share is 0, shares never shrink, and the time is kept |
| ConnectTimeout.EveryShare | src/libcec/LibCEC.cpp:105-122 | Each adapter is tried exactly while time is left, with an equal part of what is left for those still to try |
| ConnectTimeout.LastShare | src/libcec/LibCEC.cpp:117-117 | The last gets all that is left |
| ConnectTimeout.WholeTimeout | src/libcec/LibCEC.cpp:105-122 | Attempts that take exactly their shares use up the timeout, in shares that differ by at most a millisecond |
| ConnectTimeout.FirstShareIsZero | src/libcec/CECProcessor.cpp:158-161 | The condition is exact |
| ConnectTimeout.OpenFirstAdapter | src/libcec/LibCEC.cpp:91-127 | The loop hands out these shares and stops at the first adapter that opens |

## Left out

- DeviceMap.Devices.HandlerActivateSource: without the poll by which it may ask whether the TV is present (a step of its own here), the vendor hooks, menu states, the clock of the retry, and the message to an audio system.
- The other vendor handlers, apart from the device type that a Panasonic TV replaces; a mirroring TV is the only handler that reacts to power changes here.
- Transmissions and their answers: polls are answered by an oracle, and a transmission that is attempted is taken as sent.
- `SourceActivated` callbacks to clients, `m_bImageViewOnSent`, `m_iStreamPath`, menu language, OSD names, logging.
- The devices are one object with sixteen entries per attribute, not sixteen objects, so that aliasing between them is not modelled.
- ClientRegistry.Processor.RegisterClient: of `OnRegister` only the result and the initialised flag; its calls of `SetPhysicalAddress` and `ActivateSource` are steps of their own here. Settings read from the EEPROM, autodetection and the vendor id requests of `RegisterClient` come in as the client's settings.
- The adapter answers all mask changes of one `RegisterClient` call alike. Controlled mode, and a USB adapter that is told `bClientUnregistered` but does not use it, are not modelled.
- Losing an address on the bus (`HandleLogicalAddressLost`), `ChangeDeviceType`, and the `m_bStallCommunication` flag.
- The callback thread may take key presses at any times: the claims hold for all of them, in the order of the queue.
- A call reads the clock once, at a time below 2^62; the source reads it up to twice. The press counter does not wrap at 32 bits.
- Exceptions thrown by callbacks, and the callback thread's other kinds of calls.
- HandlerUse.Guard.BeginReplace: `ReplaceHandler` ends its bracket in a separate step, and what it does for the source in between is not modelled.
- `CCECAudioSystem`, `CCECPlaybackDevice` and `SystemAudioModeRequest`, which use a handler without taking a use.
- `strtoul` has a 64-bit result and the "C" locale. Text holds characters up to 127 and no NUL. The buffers of `snprintf` for names are long enough.
- The `ack`, `eom` and `transmit_timeout` fields of a command.
- `std::sort` is some sort: its contract is used, with an insertion sort behind it. `std::map` is a list of groups in order of appearance.
- Serial and USB I/O, port detection, connection retries, firmware, language bindings and clients.
