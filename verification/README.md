# GPU device plugin: identity virtualization and XID health watching

A Dafny model of the core of an NVIDIA GPU device plugin for the Kubernetes
kubelet, the code in `nvidia.go`. The plugin advertises every physical GPU
several times, once per container that may share it. It also turns NVML
"XID critical error" events into notifications that a device is unhealthy.

- **Identity codec** (`identity_codec.dfy`). A virtual device ID is the GPU's
  UUID, the separator `-_-` and the replica counter in decimal. Decoding keeps
  the text before the first separator. Decoding an encoded ID gives back the
  UUID exactly when the UUID has no separator inside and does not end in `-_`.
  The second condition matters. For a UUID such as `GPU-_`, the last two
  characters and the appended separator form an earlier `-_-`, so replica 0
  decodes to `GPU`. Real NVML UUIDs are hexadecimal with dashes, so they meet
  both conditions.
- **Numerals** (`numerals.dfy`). Go's `%d` for unsigned counters, and
  `strconv.Atoi` on a 64-bit platform: an optional sign, at least one digit,
  and a value in the int64 range.
- **Device catalog** (`device_catalog.dfy`). The oversubscription factor comes
  from the optional environment setting. The physical UUIDs expand into
  `factor * n` healthy virtual devices, replica-major. `deviceExists` looks a
  device up by ID.
- **Health monitor** (`health_monitor.dfy`). The setup loop registers each
  device's real ID for XID events. A "Not Supported" answer sends that device
  once. Any other error is fatal. The event loop then classifies each event:
  - a failed wait that is not an XID critical error sends nothing;
  - application XIDs 31, 43 and 45 send nothing;
  - an event without a UUID sends every device;
  - an event with a UUID sends the devices whose real ID matches it.

Panics are modelled as `Fatal` result values, and the output channel as the
sequence of devices sent on it. NVML answers are inputs: a list of UUIDs, one
registration answer per device, and the sequence of events received before
the context is cancelled.

## Model

| member | source | states |
|---|---|---|
| `Numerals.Decimal` | nvidia.go:25 | the `%d` numeral of a counter is a non-empty string of digits, `"0"` for zero and without a leading zero otherwise |
| `Numerals.DigitsValueOfDecimal` | nvidia.go:25 | reading the printed numeral back gives the counter printed |
| `Numerals.DecimalInjective` | nvidia.go:25 | distinct counters print as distinct numerals |
| `Numerals.Atoi` | nvidia.go:39 | an accepted string is an optional sign and then digits only, its value lies in the int64 range, and a negative value needs a leading `-` |
| `Numerals.AtoiOfDecimal` | nvidia.go:39 | Atoi accepts every in-range numeral and returns its value |
| `Numerals.AtoiOfNegatedDecimal` | nvidia.go:39 | Atoi reads `-` followed by an in-range numeral as the negated value |
| `Numerals.AtoiRejectsMalformed` | nvidia.go:39-42 | the empty string, a lone sign, or any character that is neither a digit nor a leading sign makes Atoi fail |
| `IdentityCodec.FirstSeparatorSpec` | nvidia.go:30 | the result is the first position holding the separator, or the end of the string when there is none |
| `IdentityCodec.ExtractRealDeviceIDSpec` | nvidia.go:29-31 | the real ID is the prefix before the first separator, contains no separator, and is the whole ID when the ID has none |
| `IdentityCodec.RoundTrip` | nvidia.go:24-31 | decoding an encoded ID gives back the real ID, for every counter, if and only if the real ID has no separator and does not end in `-_` |
| `IdentityCodec.SeparatorFreeIsNotEnough` | nvidia.go:24-31 | `GPU-_` holds no separator, yet its replica 0 decodes to `GPU` |
| `IdentityCodec.CounterRecoverable` | nvidia.go:24-26 | the text after the real ID and the separator is the counter, which Atoi reads back |
| `IdentityCodec.GenerateInjective` | nvidia.go:24-26 | for every real ID and counter, equal virtual IDs come from equal real IDs and equal counters; the appended separator is the last one, so it fixes where the real ID ends |
| `DeviceCatalog.NumberContainersPerGPU` | nvidia.go:33-48 | an absent setting gives 1; a setting Atoi rejects gives the unparsable-setting fatal error; a setting Atoi reads as v gives a factor exactly when v is at least 1, and that factor is v (so `+4` and `04` give 4); a factor never exceeds the int64 maximum |
| `DeviceCatalog.FactorOfNumeral` | nvidia.go:39-47 | a numeral from 1 up to the int64 maximum gives exactly that factor |
| `DeviceCatalog.FactorOfSignedAndPadded` | nvidia.go:39-47 | the settings `+4` and `04`, which Atoi accepts, give the factor 4 |
| `DeviceCatalog.FactorZeroIsFatal` | nvidia.go:43-45 | the setting `0` gives the below-one fatal error and no factor |
| `DeviceCatalog.FactorNegativeIsFatal` | nvidia.go:43-45 | every in-range negative numeral gives the below-one fatal error carrying that value |
| `DeviceCatalog.FactorMalformedIsFatal` | nvidia.go:39-42 | an empty setting, a lone sign, or one with a character that is neither a digit nor a leading sign gives the unparsable-setting fatal error |
| `DeviceCatalog.FactorOutOfRangeIsFatal` | nvidia.go:39-42 | a numeral above the int64 maximum gives the unparsable-setting fatal error, as Atoi reports a range error |
| `DeviceCatalog.ReplicaAt` | nvidia.go:57-66 | one replica pass has one device per GPU, and position i is replica j of GPU i, healthy |
| `DeviceCatalog.ReplicaLength` | nvidia.go:57-66 | one replica pass has as many devices as there are GPUs |
| `DeviceCatalog.CatalogLength` | nvidia.go:56-68 | the catalog has factor times n devices |
| `DeviceCatalog.CatalogAt` | nvidia.go:56-66 | the device at position j * n + i is replica j of GPU i, healthy |
| `DeviceCatalog.CatalogHealthy` | nvidia.go:62-65 | every catalog device is advertised healthy |
| `DeviceCatalog.DevicesOfCount` | nvidia.go:129-133 | a device is selected as often as it occurs in the list when it decodes to the real ID, and never otherwise |
| `DeviceCatalog.ReplicaDevicesOf` | nvidia.go:57-66 | with distinct valid UUIDs, one replica pass holds exactly one device decoding to each listed UUID and none for any other ID |
| `DeviceCatalog.CatalogDevicesOf` | nvidia.go:56-66 | with distinct valid UUIDs, the catalog devices decoding to one UUID are exactly its `factor` replicas, in replica order |
| `DeviceCatalog.GetDevices` | nvidia.go:50-71 | an invalid factor setting gives its fatal error; otherwise the nested loops build exactly the replica-major catalog |
| `DeviceCatalog.DeviceExists` | nvidia.go:73-80 | true if and only if some device in the list has the given ID |
| `HealthMonitor.SetupStop` | nvidia.go:86-100 | the result is the index of the first fatal registration answer, or the length when there is none |
| `HealthMonitor.Unsupported` | nvidia.go:90-95 | only listed devices are sent for "Not Supported" answers |
| `HealthMonitor.UnsupportedCount` | nvidia.go:86-95 | with distinct devices, a device is sent once when its answer ends in "Not Supported", and not at all otherwise |
| `HealthMonitor.SetupEmittedCount` | nvidia.go:86-100 | setup sends a device exactly once if its answer was "Not Supported" before any fatal answer; a registered device, a fatally failing device, or a device after a fatal answer is never sent |
| `HealthMonitor.RegisterDevices` | nvidia.go:86-100 | the setup loop fails exactly when some answer is fatal, naming the first failing device's real ID and message; it sends the setup devices, and calls registration for each device up to and including the failing one |
| `HealthMonitor.DispatchAbsorbed` | nvidia.go:110-119 | a failed wait whose event is not an XID critical error sends nothing, and neither do codes 31, 43 and 45 |
| `HealthMonitor.FailedCriticalWaitDispatched` | nvidia.go:110-112 | a failed wait whose event is an XID critical error is handled like a successful wait |
| `HealthMonitor.DispatchUnattributed` | nvidia.go:121-127 | a hardware XID without a UUID, or with an empty one, sends every device once, in list order |
| `HealthMonitor.DispatchAttributed` | nvidia.go:129-133 | a hardware XID with a UUID sends only devices decoding to it, each as often as it is listed |
| `HealthMonitor.DispatchOnCatalog` | nvidia.go:129-133 | on a catalog of distinct valid UUIDs with factor k, a fault on one GPU sends its k replicas, in replica order, and nothing else |
| `HealthMonitor.RunExtends` | nvidia.go:102-134 | the event loop only appends: the channel keeps what was sent before, followed by what the events send |
| `HealthMonitor.RunAppend` | nvidia.go:102-134 | handling one event sequence and then another is handling their concatenation |
| `HealthMonitor.CancellationPrefix` | nvidia.go:102-107 | what is sent before cancellation after k events is what setup and those k events sent; later events would only append |
| `HealthMonitor.SendAll` | nvidia.go:121-127 | the loop appends every device once, in list order |
| `HealthMonitor.SendMatching` | nvidia.go:129-133 | the loop appends exactly the devices whose real ID is the event's UUID, in list order |
| `HealthMonitor.HandleEvent` | nvidia.go:109-133 | one loop iteration appends to the channel exactly the devices that the event's classification selects |
| `HealthMonitor.WatchEvents` | nvidia.go:102-134 | the loop leaves the channel as the one-event step applied to each event in turn |
| `HealthMonitor.WatchXIDs` | nvidia.go:82-135 | a fatal registration aborts with that error, after the setup sends; otherwise the channel holds the setup sends, then each event's sends in order, until cancellation |

## Left out

- NVML calls are inputs. `GetDeviceCount` and `NewDeviceLite` become the UUID list. `RegisterEventForDevice` becomes one answer per device. `WaitForEvent` becomes the event sequence. `NewEventSet` and the deferred `DeleteEventSet` are resource handling and are not modelled.
- Discovery failures (`check(err)` after `GetDeviceCount` and `NewDeviceLite`) are not modelled, because the UUID list is given.
- Registration answers are one per call, in list order. The model does not tie an answer to the real ID passed to the call. `HealthMonitor.RegisterDevices` states which real IDs are passed.
- `Common.RegistrationFailed` also records the real ID whose registration failed. The panic at nvidia.go:98 carries only the error; the extra field adds no behaviour.
- Go strings are byte strings; the model's strings are sequences of characters. The separator search, the suffix test and the empty-UUID test use ASCII patterns only, so both readings agree on valid UTF-8 identifiers.
- The environment lookup is a parameter. The factor is read once, though the source re-reads it on every pass of the outer loop; the environment does not change between passes.
- Channel sends are appends to a sequence. Backpressure, blocking and the single consumer are not modelled.
- Cancellation through `ctx.Done()` is the end of the event sequence. The 5000 ms wait timeout is an event whose wait failed.
- Logging (`log.Println`, `log.Printf`) is not modelled. Panics (`check`, `log.Panicf`, `log.Panicln`) are `Fatal` values, not process aborts.
- `HealthMonitor.UnsupportedCount` and `HealthMonitor.SetupEmittedCount` assume distinct devices. That is how the catalog builds them. With duplicates, the multiplicities add up.
