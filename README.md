# Rangefinder: measurement store and sensor agent in Dafny

This is a Dafny model of the two pieces of logic in a Raspberry-Pi ultrasonic rangefinder.

**The measurement store** (`DataStorage`, module `Storage` in `storage.dfy`) is one JSON document with four tables: `distance_measurements`, `temperature_measurements`, `humidity_measurements` and `logs`. Every `update_*_table` call does the same four steps:

- it reloads the document from its file;
- it falls back to a fresh document of four empty lists if the file is missing or does not decode;
- it appends the argument to one table;
- it rewrites the whole file.

The file is a separate object (`DataFile`). Two stores built on the same path therefore see each other's updates. The file's state is `Missing`, `Undecodable` or `Holds(doc)`. JSON text is not modelled: writing a document and loading it back gives the same document. A file can decode to a value that is not an object, or to an object whose entry for the table is missing or not a list. These cases are modelled too, and the append then raises:

- `NotSubscriptable` (Python's TypeError) when the value is not an object;
- `MissingKey` (KeyError) when the table's key is absent;
- `NotAList` (AttributeError) when the value under the key is not a list.

An object whose entry for the table is a list is appended to, even when other tables are missing.

**The sensor agent** (module `Sensors` in `sensors.dfy`) has five parts:

- The temperature-compensated conversion of an HC-SR04 echo time into a distance, over `real`. The speed of sound is `331.5 + 0.6 T` m/s. The stored value is `speed * 100 * t / 2`, which is in centimetres.
- The two echo-timing loops, run over a finite trace of polls. Each poll is a pin level and the clock value that a loop body reads after it. The loop's result is `EchoDuration`, a function of the trace.
- The start-up wait loop, run over a trace of (temperature, distance, humidity) snapshots. It is modelled as written and with its exit condition corrected (see Findings).
- The agent's fields: the initial state, the climate read that overwrites both climate fields, the distance update, and one pass of the agent's loop.
- The pin numbers (trigger 18, echo 24, climate 17), as constants of the `Sensors` class.

A failed climate read stores `None` as the temperature. The next distance update then raises when it computes `0.6 * None`. The model returns this as `Failure(NoTemperature)`, and the echo pin is not polled. Nothing in the agent's `while True` loop (sensors.py:28-30) catches that error, so it ends the agent thread: after one failed climate read, no further climate or distance updates happen.

## Model

| member | source | states |
|---|---|---|
| `Storage.InitDataFile` | storage.py:43-46 | the fresh document has exactly the four table keys, each mapped to an empty list |
| `Storage.UpdateAppendsToOwnTable` | storage.py:23-41 | whenever the loaded document is an object whose entry for the table is a list (other tables may be absent), the update succeeds without a reset; that list becomes its old items plus the item at the end (length grows by one); every other key keeps its value and no key is added or removed; on a well-formed document the other three tables are unchanged and the document stays well-formed |
| `Storage.UpdateOnMissingFile` | storage.py:16-17 | a missing file is reset before the append: the result holds only the new item in its table, empty lists in the other three, and exactly the four keys |
| `Storage.UpdateOnUndecodableFile` | storage.py:12-15 | undecodable content is discarded: the update and the file it leaves are exactly those for a missing file |
| `Storage.UpdateOnMalformedDocument` | storage.py:9-41 | a file that decodes is never reset: a non-object raises TypeError, a missing table key raises KeyError, a non-list raises AttributeError, and the file stays as it was |
| `Storage.HistoryIsAppendOnly` | storage.py:19-41 | from a well-formed, missing or undecodable file, over any sequence of updates, each table ends as its old rows followed by the items appended to it in call order, and the file stays well-formed |
| `Storage.TwoStoresShareOneFile` | storage.py:23-26 | two stores built on one missing file, each updating the distance table once, leave the file holding a well-formed document whose distance table is both items in call order |
| `Storage.DataStorage.constructor` | storage.py:5-7 | the store is bound to its file, and nothing is loaded yet (`None`) |
| `Storage.DataStorage.GetFileContent` | storage.py:9-17 | the in-memory document becomes the file's document, or the fresh document when the file is missing or undecodable; the file is untouched |
| `Storage.DataStorage.UpdateFileContent` | storage.py:19-21 | the file then holds the whole in-memory document, and a later load returns exactly that document |
| `Storage.DataStorage.AppendToTable` | storage.py:25 | the in-place append on the in-memory document; on an error the document is unchanged |
| `Storage.DataStorage.UpdateDistanceTable` | storage.py:23-26 | the result and the new document depend only on the old file and the argument (reload, no caching); on success the file holds the new document; on an error the file is untouched |
| `Storage.DataStorage.UpdateTemperatureTable` | storage.py:28-31 | the same as the distance update, for `temperature_measurements` |
| `Storage.DataStorage.UpdateHumidityTable` | storage.py:33-36 | the same as the distance update, for `humidity_measurements` |
| `Storage.DataStorage.UpdateLogsTable` | storage.py:38-41 | the same as the distance update, for `logs` |
| `Sensors.SoundSpeed` | sensors.py:57 | the speed of sound `331.5 + 0.6 T` is positive exactly when T > -552.5 |
| `Sensors.DistanceIsInCentimetres` | sensors.py:56-58 | the stored distance is 100 times the one-way distance in metres, `speed * (t / 2)` |
| `Sensors.EchoTimeRoundTrip` | sensors.py:58 | converting echo time to distance and back is the identity, in both directions, whenever the speed is non-zero |
| `Sensors.DistanceMonotonic` | sensors.py:56-58 | above -552.5 degrees the conversion is strictly increasing in echo time, and the distance is non-negative exactly when the echo time is |
| `Sensors.DistanceAtTwentyDegrees` | sensors.py:57-58 | at 20 degrees the speed is 343.5 and a 10 ms echo stores 171.75 |
| `Sensors.RunLength` | sensors.py:45-49 | the number of body runs of a `while pin == level` loop: the polls it covers have that level, and the poll that stops it does not |
| `Sensors.EchoDurationOfPulse` | sensors.py:43-51 | on a low run, a high poll, a high run and a low poll, the duration is the clock of the last high poll (or the second pre-loop reading) minus the clock of the last low poll (or the first pre-loop reading) |
| `Sensors.EchoDurationNonNegative` | sensors.py:43-51 | with a non-decreasing clock the duration is at least 0 whenever the high loop's body runs |
| `Sensors.MissedPulseGivesNegativeDuration` | sensors.py:44-51 | if the pin is already low at the high loop's first read, the stop time keeps its pre-loop value, and the duration is negative once the clock has moved past it |
| `Sensors.GetEchoTime` | sensors.py:38-51 | the two polling loops return exactly `EchoDuration` of the trace, or None when the trace ends mid-poll |
| `Sensors.FirstMeasured` | sensors.py:65 | the index of the first snapshot with all three readings truthy: every earlier snapshot lacks one, and the one at the index has all three |
| `Sensors.WaitForSensorsMeasure` | sensors.py:60-68 | the loop as written returns the closed form `WaitAsWritten`: it exits at the first fully measured poll if at most 20 polls failed before it; otherwise it keeps polling, with the timer equal to the number of failed polls |
| `Sensors.WaitExitsOnlyWhenMeasured` | sensors.py:63-68 | the wait exits exactly when one of the first 21 polls finds all three readings, and then at the first such poll |
| `Sensors.NeverExitsAfterTimerPassesLimit` | sensors.py:63-68 | after 21 failed polls the loop never exits, whatever later polls find, and its timer exceeds 20 |
| `Sensors.ZeroReadingBlocksWait` | sensors.py:65 | a reading of exactly 0 counts as not measured; a trace where every poll has a zero reading never exits, and every poll counts as failed |
| `Sensors.WaitBounded` | sensors.py:60-68 | the corrected loop (`ongoing and timer <= 20`) returns the closed form `WaitIntended`: Measured at the first measured poll within 21 polls, otherwise StartupTimeout after 21 |
| `Sensors.WaitIntendedDecides` | sensors.py:63 | the corrected wait always decides within 21 polls; it returns after the same poll as the written loop whenever that loop exits, and times out exactly where the written loop hangs |
| `Sensors.Sensors.constructor` | sensors.py:9-16 | pins 18, 24 and 17; temperature 22; humidity and distance unset |
| `Sensors.Sensors.GetTemperatureAndHumidity` | sensors.py:53-54 | both climate fields take the driver's values, unset ones included, with no fallback; the distance is unchanged |
| `Sensors.Sensors.CalculateDistanceBasedOnTemperature` | sensors.py:56-58 | an unset temperature raises before the echo is timed; otherwise the distance field becomes `DistanceFromEcho(temperature, EchoDuration(trace))`; the climate fields are unchanged |
| `Sensors.Sensors.UpdateDistanceTempAndHumidity` | sensors.py:27-30 | one loop pass: the climate read is stored, and a failed read makes the distance update raise, leaving the old distance |

## Findings

| source | as written | input that shows it | evidently intended | confidence | as-written member | corrected member |
|---|---|---|---|---|---|---|
| sensors.py:63 | `while measurements_ongoing or timer > 20` keeps looping once the timer passes 20, even after all readings arrive | 21 polls with no readings, then polls with all three readings: the loop never returns | abort the start-up wait after 20 failed polls: `while measurements_ongoing and timer <= 20` | high (not executed) | `Sensors.NeverExitsAfterTimerPassesLimit` | `Sensors.WaitBounded` |

## Left out

- GPIO set-up and the trigger pulse (sensors.py:32-41) are not modelled. Pin reads enter only as the poll trace.
- The DHT11 driver call `read_retry` (sensors.py:54) is a foreign call. Its result is a parameter (`ClimateReading`), an arbitrary pair of optional values.
- The agent thread and its start (sensors.py:21-30) are left out because they are concurrency. The model covers one pass of the loop body, not the endless loop or the fields shared between threads. The constructor does not start the thread or run the wait. The wait is modelled on its own over a snapshot trace.
- The print loop at module level (sensors.py:71-76) is console I/O and is left out.
- `time.sleep` and `time.time` are left out. Clock values are inputs. Non-decreasing clocks are a precondition of the lemmas that need them.
- `Sensors.GetEchoTime`: a trace that ends while a loop is still polling gives None. The source has no timeout and keeps polling, so None stands for "not finished within the observed samples".
- `Sensors.Sensors.CalculateDistanceBasedOnTemperature`: the `EchoPending` outcome has the same meaning as None from `GetEchoTime`. It is not an error the source raises.
- IEEE floating point is not modelled. The distance formula is over `real`, so rounding is not captured.
- JSON text is not modelled: its syntax, the distinction between integers and floats, and NaN. Files hold decoded values, and encoding followed by decoding is the identity.
- File-system errors other than a missing file are not modelled. This covers permission errors, text that is not UTF-8, and a write interrupted mid-way. The file rewrite is a single step. The model also cannot express a measurement that `json.dump` fails to encode. In the source, `open(..., "w+")` truncates the file first (storage.py:20-21), so such a value leaves a partly written file. The next load finds it undecodable and resets all four tables, which loses the whole history.
- Concurrent writers to one file are not modelled. Two stores on one file are modelled, but only with sequential calls.
- The source keeps the decoded document as a Python object. The model keeps it as a value, so aliasing of the appended list is not captured.
- The program has no outlier filter, no minimum-range check, no fallback to the last stored value after a failed read and no timestamped log entries. The sensor agent never writes to the store. On a failed climate read the temperature is overwritten with `None`.
- The stored distance is in centimetres (`speed * 100 * t / 2`), not metres. The model follows the code.
