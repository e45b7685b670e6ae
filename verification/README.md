# aioryze core, modelled in Dafny

This project models the deterministic core of aioryze, a tool that reads gamepad, mouse and keyboard events and binds them to named controls. It covers four parts:

- **`UniqueValueOrderedDict`** (`unique_dict.dfy`, module `UniqueDict`). This is an insertion-ordered dictionary whose item assignment raises `ValueError` when the value is already stored. It is modelled as an association list whose entry order is the key order.
- **`Config`** (`config.dfy`, module `DeviceConfig`). This covers:
  - the SNES button list;
  - the whitelisted `__setitem__` and the plain `__getitem__`;
  - the first-reader rule of `read`;
  - `set_actions`, which drains a set of names and binds each to one event read from the device.
- **The device event buffer** (`event_buffer.dfy`, module `EventBuffer`). This is `BufferMixin.get/put/buffer_qsize` plus the `AbstractDevice` defaults. The queue is a `seq` with the head first. Timestamps are whole microseconds, and the wall clock is a `now` parameter.
- **The device command text** (`command_text.dfy`, module `CommandText`, and `device_command.dfy`, module `DeviceCommand`). This covers:
  - `mark_text` and its colour codes;
  - the `DEVICE_TEXT` line;
  - the `__list` output as a pure function of the prefix and the device names;
  - `__device` index lookup, which follows Python list indexing;
  - the parse-failure branch of `__select_device`.

Shared vocabulary lives in `outcomes.dfy` (module `Outcomes`):
- `Option`;
- `Result`, which is a return value or a raised Python exception;
- `Mutation`, which is the state an in-place operation leaves plus the exception it raised, if any.

Modelling conventions:
- Python `==` on events is Dafny equality on the event type. The event type is a type parameter wherever the source does not look inside events.
- A device's `read()` results are a sequence the model consumes from the front.
- The enumerated device list is passed in as a snapshot.
- Python's `int()` parsing of the prompt is an `Option<int>` argument.
- Staleness is decided exactly in integers. An event is stale when `(now - timestamp) * 100 > timeout * 1_000_000`, which is the source's `age_in_seconds > timeout / 100` with times in microseconds.

Points worth noting about the code:
- After the queue runs dry, `get` returns the next event put with no freshness check.
- Re-assigning a key the value it already holds raises `ValueError`, because that value is among the values.
- `Config.__getitem__` raises `TypeError` while `_mapping` is unset, and `KeyError` for an unbound key.
- `__list` numbers devices from 0.
- `put` with a device `timeout` of zero or less drops every event. `asyncio.wait_for` cancels the put before it starts, and the resulting `TimeoutError` is swallowed.

## Model

| member | source | states |
|---|---|---|
| `UniqueDict.Store` | src/utils/__init__.py:15 | The inherited `OrderedDict` store: afterwards the key maps to the value and every other key keeps its binding. An existing key keeps its position; a new key is appended at the end of the key order. |
| `UniqueDict.SetItem` | src/utils/__init__.py:12-15 | Raises exactly when the value is already among the values, always as `ValueError` and with the map unchanged. On success the key maps to the value, other keys are untouched, key order follows the `OrderedDict` rule, and no two keys share a value if none did before. |
| `UniqueDict.SetSameValueRaises` | src/utils/__init__.py:13-14 | Re-assigning a key the value it already holds raises `ValueError` and leaves the map unchanged. |
| `UniqueDict.SetManyKeepsInjective` | src/utils/__init__.py:6-15 | After any run of assignments, stopping at the first that raises, the map still has distinct keys and pairwise-distinct values. |
| `DeviceConfig.SnesButtons` | src/devices/config.py:10-13 | `SNES` has 12 pairwise-distinct names and starts up, down, left, right. |
| `DeviceConfig.NewConfig` | src/devices/config.py:17-26 | A new `Config` takes `SNES` as its default names and no device. Its mapping is unset (`None`). |
| `DeviceConfig.GetItem` | src/devices/config.py:112-118 | Raises `TypeError` while the mapping is unset. Once it is set, a bound key returns its bound value and an unbound key raises `KeyError`. The whitelist is not consulted. |
| `DeviceConfig.SetItem` | src/devices/config.py:100-110 | A key outside the names raises `KeyError`; a whitelisted key raises `TypeError` while the mapping is unset, and `ValueError` (let through from the unique-value mapping) when the value is already bound. Any failure writes nothing. It succeeds exactly when the key is whitelisted, the mapping is set and the value is new. After success, reading the key gives the value and every other key reads as before. |
| `DeviceConfig.FreshConfigRejectsAccess` | src/devices/config.py:100-118 | On a freshly built `Config`, setting any SNES key and reading it back both raise `TypeError`, because `_mapping` starts as `None`. |
| `DeviceConfig.Read` | src/devices/config.py:36-45 | Returns the stream's first event. The device is set to the reader only when it was unset, and is otherwise unchanged. An empty stream returns nothing and changes nothing. |
| `DeviceConfig.FirstReaderWins` | src/devices/config.py:42-45 | Over any series of reads starting with no device set, the configured device ends as the device of the first read that delivered an event. Earlier reads of exhausted streams change nothing, and later reads do not replace it. |
| `DeviceConfig.SetActions` | src/devices/config.py:84-98 | Pops one name per `device.read()`, so events consumed equal names removed, and the unread events are a suffix. Returns a mapping exactly when the events read are pairwise distinct. A returned mapping has exactly the input names as keys, has the events in read order as values, and has no repeated value, and the input set is left empty. Otherwise it raises `ValueError` at the first event that repeats an earlier one. |
| `EventBuffer.Stale` | src/devices/abstract.py:40 | The freshness test of `get`: an event is stale exactly when its age exceeds `timeout / 100` seconds, which is `timeout * 10000` microseconds, compared strictly. |
| `EventBuffer.Full` | src/devices/abstract.py:76 | The asyncio queue's `full()`: a `maxsize` of zero or less is never full. A queue within its positive bound is full exactly when it holds `maxsize` events. |
| `EventBuffer.QSize` | src/devices/abstract.py:22-29 | `buffer_qsize` is zero exactly for an empty queue and never exceeds a positive bound the queue keeps. |
| `EventBuffer.NewBuffer` | src/devices/abstract.py:62-78 | A new device buffer is empty (`buffer_qsize` 0), bounded by `maxsize` (default 0, meaning unbounded), and keeps `timeout` (default 100). |
| `EventBuffer.DefaultThresholdIsOneSecond` | src/devices/abstract.py:40 | With the default timeout, an event is stale exactly when it is more than one second old. The comparison is strict, so an event exactly one second old is still delivered. |
| `EventBuffer.Put` | src/devices/abstract.py:48-59 | Never raises. With a positive timeout, a queue that is not full gains the event at its tail, and `buffer_qsize` grows by one. A full queue, or any queue when the timeout is zero or less, is left as it was, because the event is dropped. A bounded queue never exceeds its bound. |
| `EventBuffer.PutManyStaysAtCapacity` | src/devices/abstract.py:56-59 | A queue at its bound stays exactly as it is whatever is put, so the surplus is dropped rather than queued. |
| `EventBuffer.Get` | src/devices/abstract.py:31-46 | Removes events only from the head, so what remains is a suffix. A fresh head is returned and only it is removed. Otherwise it returns the first fresh event, every event before it was stale and is discarded, and the queue becomes the suffix after it. If every queued event is stale, or the queue is empty, all are discarded and the next event put is returned with no freshness check. |
| `CommandText.Colorize` | src/core/command.py:4 | `COLORIZE_TEXT.format(s)` adds exactly 9 characters, ESC `[32m` before and ESC `[0m` after, and stripping them gives back `s`. |
| `CommandText.MarkText` | src/core/command.py:8-17 | One argument returns the coloured text, 9 characters longer and stripping back to the argument. No argument raises `IndexError`. Several arguments raise `TypeError`. |
| `CommandText.MarkTextPairRaises` | src/core/command.py:14-15 | Any two arguments make `mark_text` raise `TypeError`. |
| `CommandText.MarkTextJoined` | src/core/command.py:14-15 | With `''.join(args)` as evidently intended, several arguments return their concatenation in order. Argument `i` sits exactly between the total lengths of the arguments before it and up to it, and the length is the sum of theirs. One or no argument behaves as `mark_text`. |
| `CommandText.Decimal` | src/core/command.py:5 | `str(i)` of an index is a non-empty run of decimal digits with no leading zero. |
| `CommandText.DecimalRoundTrip` | src/core/command.py:5 | Reading `str(i)` back as a decimal number gives `i`. |
| `CommandText.DeviceTextRoundTrip` | src/core/command.py:5 | `DEVICE_TEXT` formats index `i` and name `n` as `[i] n` plus a newline. The line always parses back to exactly `(i, n)`, including for names containing `]`. |
| `CommandText.DeviceTextOneLine` | src/core/command.py:5 | A device line ends in a newline, and that is its only newline when the name holds none. |
| `DeviceCommand.ListingFrom` | src/devices/command.py:49-51 | The text `__list` writes for devices numbered from a given index is empty exactly when there are no devices. While neither the prefix nor any name holds a newline, it holds exactly one newline per device. |
| `DeviceCommand.Listing` | src/devices/command.py:42-51 | `__list(prefix)` numbers from 0 and writes nothing exactly when there are no devices. While no device name holds a newline, its output reads back into exactly the device names in order. |
| `DeviceCommand.ListingAppend` | src/devices/command.py:42-51 | `__list` writes one line per device in enumeration order. The device at position `i` adds `prefix + "[i] name\n"` after the lines of the devices before it. |
| `DeviceCommand.ListingRoundTrip` | src/devices/command.py:49-51 | For any prefix and newline-free names, the output splits into one line per device. Each line starts with the prefix and carries consecutive 0-based indexes, and the device names read back in order. |
| `DeviceCommand.DeviceAt` | src/devices/command.py:76-86 | Returns a device exactly for `-n <= i < n`. An index `i >= 0` gives element `i` and a negative one gives element `n + i`. Anything else gives `None`, because `IndexError` is swallowed. |
| `DeviceCommand.DeviceIndexes` | src/devices/command.py:83-86 | Position `k` and `k - n` select the same device. Among distinct devices, no other index selects it. |
| `DeviceCommand.SelectDevice` | src/devices/command.py:53-63 | An answer that is not an integer yields `None` whatever the devices are. Otherwise the result is `__device` of that index: a device exactly when the index is within Python's range, and then the one Python indexing selects. |
| `DeviceCommand.ListedIndexSelects` | src/devices/command.py:42-63 | `__list` writes device `k`'s line right after the lines of the devices before it. That line reads back as index `k`, and typing `k` at the prompt selects device `k`. |

## Findings

| source | as written | input that shows it | evidently intended | confidence | as-written member | corrected member |
|---|---|---|---|---|---|---|
| src/core/command.py:14-15 | `''.join(*args)` spreads the arguments into `join`, which takes exactly one | `mark_text("a", "b")` raises `TypeError` | `''.join(args)`, returning `"ab"` | medium, not executed | `CommandText.MarkTextPairRaises` | `CommandText.MarkTextJoined` |

## Left out

- `DeviceConfig.SetActions`: requires at least as many supplied events as names. The source's `device.read()` waits for the next event, so a device that falls silent blocks forever. The model does not represent non-termination.
- `EventBuffer.Put`: a full queue drops the event at once. With a positive timeout, the source first waits up to `timeout` seconds, and a consumer may free space meanwhile. That timed wait depends on the scheduler.
- `EventBuffer.Get`: reads the clock once (`now`) for the whole call. The source reads the wall clock again for every event it examines.
- `DeviceConfig.Read`: the default `device=None` is not modelled. It fails with `AttributeError` on `device.async_read()`.
- `time_elapsed` and `convert_timeval` are left out because they do float wall-clock arithmetic. They are replaced by integer microsecond timestamps and `now`.
- `Config.read_all` is left out because its point is the `asyncio.wait(FIRST_COMPLETED)` race between devices.
- `Config.scan`, `load` and `save` are left out because they are empty stubs. The min/max time-window device scan has no code.
- `Config.devices` is left out because it only wraps the library's device list.
- `CommandMixin.__scan` is left out because it calls the zero-argument `scan` with the unpacked `SCAN_TIMER_RANGE`, inside a terminal spinner. `config/settings` is not part of this model.
- Argument parsing (`_create_parser`, `__add_arguments`, `__parse_arguments`) is left out because it is configuration of the standard argument parser.
- `int()` parsing of the typed index is abstracted as an `Option<int>` argument.
- Writing to `stdout` is left out. `__list` is modelled as the text it writes.
- The abstract `devices`, `get_device`, `read`, `start` and `stop` of `AbstractDevice` are left out because they have no bodies in the source.
- The spinner (src/devices/decorators.py), the `inputs` device-category properties (src/devices/devices.py), `display_devices` (src/devices/base.py) and the version printer (src/__main__.py) are left out because they are UI or library wrappers.
- The `Device` class is not part of this model, so devices are a type parameter. Every device is taken as truthy, which is Python's default for objects.
- The `inputs` library's event comparison is not part of this model. Event equality is Dafny equality.
