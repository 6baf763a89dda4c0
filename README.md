# RadioHound client scripts: archive download and direct-scan reply selection

This project models, in Dafny, the logic of two RadioHound client scripts. It
proves what that logic guarantees.

- **Archive download** (`scripts/get_archive_data.py`, module `ArchiveQuery`).
  - The user's start and end dates are completed to full timestamps. The
    check `re.match("\d{4}-\d{2}-\d{2}...$")` is modelled exactly, including
    Python's `$`, which also matches before a final newline.
  - The archive query URL is built, and so is the per-scan data URL.
  - The loop over the listed scans is modelled. For each scan it gives the
    data request and the output file name `output/<data_id>-<mac>-<timestamp>.json`,
    where the timestamp is sanitised.
  - The Python string operations the script uses are modelled in module
    `PyStr`: `str.replace`, `str.split` and the anchored pattern match.
    `PyStr` also has a `Join`, which the script does not call; it serves
    only to prove the split round trip and to read the URLs back.
- **Direct scan** (`scripts/manual_scan_direct.py`, module `DirectScan`).
  - The MQTT callback drops retained messages and queues every other
    message's payload. It is the class `Inbox`.
  - The main loop polls the queue:
    - it takes at most one payload per iteration;
    - it skips status reports;
    - it stops at the first `periodogram` or `raw` data message;
    - it gives up once more than 10 seconds have elapsed.
  - The listener thread and the clock are replaced by a schedule of ticks.
    There is one tick per loop iteration. A tick holds the messages delivered
    before that iteration and the elapsed time that iteration reads.
  - `Await` is the loop as a function. `Decide` is an independent reference
    definition: the first queued payload that does not skip decides. The
    lemmas connect the two.

Some of the code's behaviour is easy to misread; the model follows the code:

- Only hour `00` (`YYYY-MM-DD 00` and `YYYY-MM-DD 00:00`) is completed.
  - Any other hour is sent as typed: `2024-01-05 13` becomes `2024-01-05T13`.
  - The end date at hour `00` is completed to `00:00:00`, not `23:59:00`.
  - See `OtherHoursLeftOpen` and `ZeroHourExample`.
- The loop over listed scans has no exception handler.
  - A scan record missing `data_id`, `fmin`, `mac_address` or `timestamp`
    ends the run with a KeyError.
  - The scans after it are not fetched. This is the `Aborted` outcome.
- The direct-scan loop accepts both `periodogram` and `raw` data, whichever
  command was sent.
  - A non-status message without `metadata.data_type` ends the loop with a
    KeyError. This is the `Crashed` outcome.
  - The clock starts after the command is published, and the loop polls
    without sleeping.

## Model

| member | source | states |
|---|---|---|
| PyStr.Substitute | scripts/get_archive_data.py:29-30 | `replace` of one character by another: same length, each position replaced exactly when it held the old character, no old character left |
| PyStr.Delete | scripts/get_archive_data.py:57 | `replace(':', '')`: the character is gone, every other character stays, nothing is added, and a string without it is unchanged |
| PyStr.DeleteAppend | scripts/get_archive_data.py:57 | deleting a character from a concatenation deletes it from each piece |
| PyStr.SplitHead | scripts/get_archive_data.py:57 | `split(sep)[0]`: the longest prefix without `sep`, ending at the end of the string or just before its first `sep` |
| PyStr.Split | scripts/get_archive_data.py:57 | `split(sep)`: at least one piece, no piece contains `sep`, the first piece is the text before the first `sep` |
| PyStr.JoinSplit | scripts/get_archive_data.py:57 | joining the pieces of a split with the separator gives the string back |
| PyStr.MatchesToEnd | scripts/get_archive_data.py:32-43 | `re.match("...$")` for a pattern of `\d` and literals: the pattern spells all of the string, or all of it but one final newline |
| PyStr.OnlyOneTrailingNewline | scripts/get_archive_data.py:32-43 | after a string the pattern spells, `$` accepts exactly one extra character, a newline, and not two newlines |
| ArchiveQuery.Completion | scripts/get_archive_data.py:32-43 | a completion is only appended to a string that starts with a date, and the completed string then has length 19 or 20; in the length-20 case the final newline that `$` let through stays in place, before the appended text (`2024-01-05\n` becomes `2024-01-05\nT00:00:00`), so the result does not end in a newline (proved by `NewlineDateCompletedAfterNewline`) |
| ArchiveQuery.Normalised | scripts/get_archive_data.py:29-43 | the normalised date has no space, only grows, and starts with the raw date with every space turned into `T` |
| ArchiveQuery.NormaliseDate | scripts/get_archive_data.py:29-43 | the replace and the three checks run one after another give `Normalised`: at most one completion fires |
| ArchiveQuery.NewlineDateCompletedAfterNewline | scripts/get_archive_data.py:32-39 | a bare date followed by one newline passes the `$` check and gets the day default after the newline: the result has length 20, holds the newline at position 10 and does not end in a newline |
| ArchiveQuery.NewlineDateExample | scripts/get_archive_data.py:38-39 | the end date `2024-01-05` followed by a newline becomes `2024-01-05\nT23:59:00` |
| ArchiveQuery.BareDateGetsDayDefault | scripts/get_archive_data.py:32-39 | a bare `DDDD-DD-DD` gets `T00:00:00` as start and `T23:59:00` as end |
| ArchiveQuery.ZeroHourCompleted | scripts/get_archive_data.py:29-41 | `DDDD-DD-DD 00` or `DDDD-DD-DDT00` becomes the `T` form plus `:00:00` at either end, and the result has the full `DDDD-DD-DDT00:00:00` form |
| ArchiveQuery.ZeroMinuteCompleted | scripts/get_archive_data.py:29-43 | `DDDD-DD-DD 00:00` or `DDDD-DD-DDT00:00` becomes the `T` form plus `:00` at either end, and the result has the full `DDDD-DD-DDT00:00:00` form |
| ArchiveQuery.OtherHoursLeftOpen | scripts/get_archive_data.py:32-43 | a 13-character `DDDD-DD-DD HH` or `DDDD-DD-DDTHH` with an hour other than `00` is only converted from space to `T`, with no minutes or seconds added |
| ArchiveQuery.UnmatchedOnlySubstituted | scripts/get_archive_data.py:29-43 | a date that matches none of the three patterns is only converted from space to `T`, so a date with no space comes back unchanged |
| ArchiveQuery.NormalisedIsIdempotent | scripts/get_archive_data.py:29-43 | normalising an already normalised date changes nothing |
| ArchiveQuery.BareDateExample | scripts/get_archive_data.py:32-39 | `2024-01-05` becomes `2024-01-05T00:00:00` as start and `2024-01-05T23:59:00` as end |
| ArchiveQuery.ZeroHourExample | scripts/get_archive_data.py:40-41 | the end date `2024-01-05 00` becomes `2024-01-05T00:00:00` |
| ArchiveQuery.OtherHourExample | scripts/get_archive_data.py:29-43 | the start date `2024-01-05 13` becomes `2024-01-05T13` |
| ArchiveQuery.Cleaned | scripts/get_archive_data.py:57 | after the two replaces there is no space, no colon, and the text is no longer |
| ArchiveQuery.SanitisedTimestamp | scripts/get_archive_data.py:57 | the sanitised timestamp has no space, colon or `.`, and is no longer than the raw one |
| ArchiveQuery.SanitiseCutsFirst | scripts/get_archive_data.py:57 | the result is the cleaned text of the raw timestamp before its first `.` |
| ArchiveQuery.SanitiseIsIdempotent | scripts/get_archive_data.py:57 | sanitising a sanitised timestamp changes nothing |
| ArchiveQuery.SanitiseAddsOnlyUnderscore | scripts/get_archive_data.py:57 | the only character sanitising can introduce is `_` |
| ArchiveQuery.CleanedAppend | scripts/get_archive_data.py:57 | the replaces work piece by piece on a concatenation |
| ArchiveQuery.CleanedClock | scripts/get_archive_data.py:57 | `<date> <hh>:<mm>:<ss>` is cleaned to `<date>_<hh><mm><ss>` |
| ArchiveQuery.ClockTimestamp | scripts/get_archive_data.py:57 | `<date> <hh>:<mm>:<ss>.<fraction>` becomes `<date>_<hh><mm><ss>`: the milliseconds are cut off |
| ArchiveQuery.FileName | scripts/get_archive_data.py:63 | the output file name starts with `output/` and ends with `.json` |
| ArchiveQuery.ParseFileNameOf | scripts/get_archive_data.py:63 | a name built from a data id and MAC address without `-` reads back as its three parts |
| ArchiveQuery.FileNameRoundTrip | scripts/get_archive_data.py:63 | when neither the data id nor the MAC address holds `-`, the file name of a scan reads back as its data id, MAC address and sanitised timestamp, so such scans get distinct files |
| ArchiveQuery.FileNameDashCollision | scripts/get_archive_data.py:63 | without that condition names collide: data id `a-b` with MAC `c` and data id `a` with MAC `b-c` get the same file |
| ArchiveQuery.SlashOnlyAfterOutput | scripts/get_archive_data.py:63 | a name built from parts without `/` has its only `/` right after `output` |
| ArchiveQuery.FileNameStaysInOutput | scripts/get_archive_data.py:63 | with no `/` in the data id, MAC address and timestamp, the file is written directly in `output` |
| ArchiveQuery.ArchiveUrl | scripts/get_archive_data.py:47 | the archive query goes to the RadioHound server |
| ArchiveQuery.ArchiveUrlRoundTrip | scripts/get_archive_data.py:47 | the query reads back as `node_id`, `start_date`, `end_date` with the given values, in order, provided none of the values holds `&` |
| ArchiveQuery.DataUrl | scripts/get_archive_data.py:60 | the data request goes to the RadioHound server |
| ArchiveQuery.DataUrlRoundTrip | scripts/get_archive_data.py:60 | provided the data id holds no `&`, the data request's query reads back as exactly `id` with that data id |
| ArchiveQuery.HasScanKeys | scripts/get_archive_data.py:54-57 | the record holds the four keys that the loop body reads without a guard: `data_id`, `fmin`, `mac_address` and `timestamp` |
| ArchiveQuery.DownloadFor | scripts/get_archive_data.py:54-63 | one scan's data request goes to the server's `/data?id=<data_id>`, and its file lies in `output/` and ends in `.json` |
| ArchiveQuery.DownloadIdentifiesScan | scripts/get_archive_data.py:53-63 | when the data id holds no `&` or `-` and the MAC address no `-`, the request of one listed scan names its data id, and its file name reads back as its data id, MAC address and sanitised timestamp |
| ArchiveQuery.DownloadEach | scripts/get_archive_data.py:53-65 | the scans are fetched and saved in listing order; the loop stops at the first record missing a key it reads, and runs to the end exactly when every record has them |
| ArchiveQuery.DownloadArchive | scripts/get_archive_data.py:29-65 | a run queries the completed window; it fails exactly when the listing fails, finishes exactly when every record is complete, and otherwise aborts at the first incomplete record after saving the ones before it |
| DirectScan.VerdictOf | scripts/manual_scan_direct.py:80-91 | a status message always skips; a message selects exactly when it has no status and its data type is `periodogram` or `raw`, and crashes exactly when it has no status and no data type |
| DirectScan.OutcomeOf | scripts/manual_scan_direct.py:83-106 | a message that ends the loop never means a timeout; it is selected exactly when its data type is `periodogram` or `raw` |
| DirectScan.Accepted | scripts/manual_scan_direct.py:52-58 | the listener queues at most one payload per message, none from a batch of retained messages, and all of a batch of live ones |
| DirectScan.Decide | scripts/manual_scan_direct.py:72-106 | reference decision: a stream decides nothing exactly when every payload in it skips |
| DirectScan.Await | scripts/manual_scan_direct.py:70-106 | the loop runs at least one tick and no more than the schedule has, and dequeues at most one payload per tick |
| DirectScan.AwaitConserves | scripts/manual_scan_direct.py:77-78 | the payloads dequeued, then those left, are the starting queue followed by everything queued during the ticks the loop ran: payloads are taken only from the front, in arrival order, and those behind the selected one stay |
| DirectScan.AwaitSkipsUntilDecided | scripts/manual_scan_direct.py:80-106 | every dequeued payload but the last skips; a timeout dequeued only skips; any other ending is the outcome of the last payload dequeued |
| DirectScan.AwaitWatchesClock | scripts/manual_scan_direct.py:72-75 | every tick before the last read at most 10 seconds, and the loop timed out exactly when its last tick read more |
| DirectScan.DecideSkipsHead | scripts/manual_scan_direct.py:80-81 | a status report or a payload of another data type at the head does not change the decision |
| DirectScan.AwaitAgreesWithDecide | scripts/manual_scan_direct.py:72-106 | unless it times out, the loop's outcome is the reference decision over the starting queue and all later arrivals |
| DirectScan.QueuedDecisionReached | scripts/manual_scan_direct.py:72-106 | a decision already in the queue is reached when the clock stays within the budget for as many ticks as the queue is long, whatever arrives meanwhile |
| DirectScan.ArrivedDecisionReached | scripts/manual_scan_direct.py:72-106 | a reply that arrives during the wait is reached: when the starting queue followed by the payloads accepted on the first k ticks holds a payload that does not skip, and the clock reads at most 10 seconds on every tick before tick max(k - 1, 0) + (the length of that stream), the loop ends with the decision of that stream |
| DirectScan.ReplyOnFirstTickSelected | scripts/manual_scan_direct.py:72-90 | a live periodogram or raw message that is the only delivery before the first iteration, which reads the clock within the budget, is selected |
| DirectScan.RetainedQueueNothing | scripts/manual_scan_direct.py:55-57 | a schedule of retained messages queues nothing |
| DirectScan.RetainedOnlyTimesOut | scripts/manual_scan_direct.py:52-75 | with an empty queue and only retained messages arriving, the loop times out |
| DirectScan.Inbox.constructor | scripts/manual_scan_direct.py:45 | the response queue starts empty |
| DirectScan.Inbox.OnMessage | scripts/manual_scan_direct.py:52-58 | a retained message leaves the queue unchanged; any other has its payload appended at the back, the earlier entries unchanged |
| DirectScan.Inbox.Deliver | scripts/manual_scan_direct.py:52-58 | a batch of messages appends exactly the accepted payloads, in arrival order |
| DirectScan.Inbox.Get | scripts/manual_scan_direct.py:78 | the oldest payload is removed and returned, the rest stay in order |
| DirectScan.Inbox.AwaitReply | scripts/manual_scan_direct.py:70-106 | the polling loop ends with the outcome of `Await` and leaves the queue as `Await` says |

## Left out

- The MQTT connection, subscriptions, publishing of the command and the
  listener thread (scripts/manual_scan_direct.py:60-68). The listener's
  deliveries are the `arrivals` of each tick.
- The wall clock. Each tick carries the elapsed time its iteration reads. A
  schedule must end with a reading over the budget (`Expires`), as a real
  clock eventually gives.
- JSON decoding of MQTT payloads (scripts/manual_scan_direct.py:54). A payload
  is modelled by the keys the loop reads. A message whose payload is not valid
  JSON raises in the listener before the retain check; that is not modelled.
- The decoding and analysis of selected data: base64, numpy, the voltage
  conversion, `scipy.signal.welch` and printing
  (scripts/manual_scan_direct.py:84-105). A selected message whose `data` or
  `type` key is missing would raise there; the model ends at the selection.
- The HTTP requests (scripts/get_archive_data.py:48, 61) and JSON decoding. The
  archive's listing is an input, and None stands for a failed list request.
- DownloadEach: a failure of an individual data request
  (scripts/get_archive_data.py:61) would also abort the run; the model takes
  every data request to succeed.
- DownloadArchive: it does not model the printed messages or the process exit
  status.
- Record values are modelled as text. The formatting of non-string JSON
  values (a numeric `data_id` rendered by the f-string) is not modelled.
- File and directory I/O (scripts/get_archive_data.py:26-27, 63-65) and
  argparse. A missing `--start_date` or `--end_date` would raise on `None`;
  the model takes both as strings.
- `\d` is modelled as the ASCII digits `0`-`9`. Python 3 also accepts other
  Unicode decimal digits for `\d` in a `str` pattern.
- scripts/parse_scan.py is not part of this model. It is floating-point
  numerics over library-decoded data.
