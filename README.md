# Voice presence and text configuration, modelled in Dafny

This project models the core of a bot that keeps one account in one Discord
voice channel. The account holds the channel for a randomised stretch, and
indefinitely during a night window. It backs off when someone else joins, and
it goes to sleep while the owner uses the account in another channel. A small
pure part of its text module is modelled too.

- `Clock` (`clock.dfy`): `in_night_window`. The local time is a value like
  Python's `datetime.time` (hour, minute, second, microsecond), compared field
  by field as Python compares them.
- `Voice` (`voice.dfy`): the class `VoiceModule`. Its fields are the state
  (`IDLE`, `CONNECTED`, `BUSY_WAIT`, `MANUAL_SLEEP`), `connected_since`,
  whether a voice client is connected, whether it plays the silent keep-alive,
  the `running` flag, and the point where the control loop `run` is suspended.
  One iteration of `run` is split at its `await` points into atomic steps:
  - `Tick`: from the loop head up to `join_vc`.
  - `JoinResult`: what follows the join.
  - `StayCheck`: one evaluation of the stay loop's guard, with the leave after it.
  - `Fault`: the `except` branch.

  The presence callback `OnVoiceStateUpdate` may run between any two steps.
  `Valid()` is the invariant every step keeps. Four client methods replay
  concrete timelines.
- `Text` (`text.dfy`): `parse_config_list` and the greeting filter of
  `load_greetings`. They are built on `PyStr` (`pystr.dfy`), which models
  Python's `str.strip()`, `str.split(sep)` and `sep.join`. `str.isspace`
  covers Python's full Unicode white-space set.
- `Opt` (`opt.dfy`): the `Option` type.

Environment inputs are parameters of the step that observes them:
- the time of day, and `time.time()` as a whole number of seconds;
- whether the target channel resolves, and how many members it has;
- whether `join_vc` left a client connected;
- the value drawn by `random.randint(0, jitter)`.

Sleeps are not performed. A step returns `Sleep(seconds)` for the sleep the
loop would take, including the 2 s pause inside `leave_voice` when the loop
itself leaves. The step's contract states that duration. When the callback
or `stop` calls `leave_voice`, that pause belongs to them and is not returned.

## Behaviour as written

In these places the code behaves in ways a reader might not expect; the model
follows the code.

- There is a single join attempt per pass. There is no retry budget, and no
  special handling of an "already connected" conflict. A failed join goes
  straight to `BUSY_WAIT` (`Voice.VoiceModule.JoinResult`).
- From `IDLE` the loop joins whatever the target's occupancy. Only the
  `BUSY_WAIT` path checks that the channel is empty (`Voice.VoiceModule.Tick`).
  Leaving `BUSY_WAIT` for an empty channel joins in the same pass.
- `stop` releases the connection but leaves the state as it was. So "a session
  exists exactly in `CONNECTED`" is kept by every step except `Stop`. It is
  stated as a separate predicate, `SessionMatchesState`, and not as part of
  `Valid()`.
- A manual move that arrives while `join_vc` is in flight is overwritten: the
  join result sets `CONNECTED` (`Voice.OverrideDuringJoinScenario`).
- After an eviction, the stay loop returns to the loop head without a cooldown.

## Model

| member | source | states |
|---|---|---|
| `Clock.InNightWindow` | voice_module.py:53-55 | the window holds exactly when the hour is 2 to 6; it never holds across midnight |
| `Clock.BeforeIsChronological` | voice_module.py:55 | comparing two times field by field agrees with comparing their instants (microseconds since midnight) |
| `Clock.NightWindowIsInterval` | voice_module.py:53-55 | the window is the half-open interval of instants from 02:00 to 07:00 |
| `Clock.NightWindowSeconds` | voice_module.py:53-55 | on whole seconds since midnight the window is 7200 <= t < 25200 |
| `Clock.NightWindowDoesNotWrap` | voice_module.py:55 | midnight and 23:59:59.999999 are both outside the window |
| `Voice.VoiceModule.constructor` | voice_module.py:29-44 | a new module is not running, `IDLE`, holds no connection, and keeps the given configuration |
| `Voice.VoiceModule.Defaults` | voice_module.py:35-38 | the defaults are base stay 3600 s, jitter 3600 s, cooldown 900 s, busy retry 60 s |
| `Voice.VoiceModule.StartAudio` | voice_module.py:83-92 | afterwards the keep-alive plays exactly if it played before or a client is connected; with no client, or already playing, nothing changes (so a second call changes nothing) |
| `Voice.VoiceModule.StopAudio` | voice_module.py:94-98 | afterwards it plays only if it played with no client; unless a connected client is playing, nothing changes (so a second call changes nothing) |
| `Voice.VoiceModule.LeaveVoice` | voice_module.py:67-77 | afterwards no client is connected, no keep-alive plays and `connected_since` is absent |
| `Voice.VoiceModule.OnVoiceStateUpdate` | voice_module.py:104-128 | a self-move elsewhere enters `MANUAL_SLEEP` and releases, but is a no-op when already asleep; a self-join of the target changes nothing; a self-disconnect while asleep returns to `IDLE`; another member entering the target while `CONNECTED` releases and enters `BUSY_WAIT`; every other event changes nothing; only the self-disconnect leaves `MANUAL_SLEEP`; `Valid()` is kept |
| `Voice.VoiceModule.Start` | voice_module.py:134-136 | the loop is running and at its head |
| `Voice.VoiceModule.Tick` | voice_module.py:141-166 | not running: exit. `MANUAL_SLEEP`: sleep 10 s. Missing target: sleep 60 s. `BUSY_WAIT` with members: sleep `busy_retry`. All of these change nothing. Otherwise `BUSY_WAIT` becomes `IDLE`, then with a client still connected it sleeps 15 s, else it joins. A join happens only with no client connected and, from `BUSY_WAIT`, only for an empty target. From `IDLE` it always joins |
| `Voice.VoiceModule.JoinResult` | voice_module.py:166-189 | a failed join sets `BUSY_WAIT` and sleeps `busy_retry`; a successful one sets `CONNECTED`, starts the keep-alive, records `connected_since = now` and chooses the night stay inside the window, else a fixed stay in [base_stay, base_stay + jitter] |
| `Voice.VoiceModule.StayCheck` | voice_module.py:184-201 | while the guard holds it sleeps 30 s and changes nothing; once it fails, a module still `CONNECTED` releases, goes `IDLE` and sleeps 2 s (inside `leave_voice`, voice_module.py:76) plus the cooldown, any other state is left alone; a night stay ends exactly when the window closes, a fixed stay exactly when elapsed >= stay time |
| `Voice.VoiceModule.Fault` | voice_module.py:203-205 | the loop returns to its head and sleeps 60 s; no field but the loop position changes |
| `Voice.VoiceModule.Stop` | voice_module.py:207-210 | not running, the connection released, the state unchanged |
| `Voice.CycleScenario` | voice_module.py:176-201 | base 3600 s, no jitter, cooldown 900 s, outside the window: held at t = 3599, `IDLE` at t = 3600, then a 902 s pause (2 s in `leave_voice`, then the cooldown) |
| `Voice.NightScenario` | voice_module.py:184-187 | a join at 03:00 is still held at 06:59:59.999999 and released at 07:00 |
| `Voice.BusyWaitScenario` | voice_module.py:120-166 | an eviction gives `BUSY_WAIT`; an occupied target sleeps 60 s; an empty one joins in the same pass |
| `Voice.OverrideDuringJoinScenario` | voice_module.py:108-177 | a manual move during `join_vc` gives `MANUAL_SLEEP`, which the successful join then overwrites with `CONNECTED` |
| `PyStr.Strip` | text_module.py:17 | the result has no white space at either end and is no longer than the input |
| `PyStr.StripDecomposes` | text_module.py:17 | the input is the white space removed in front, then the result, then the white space removed behind |
| `PyStr.StripUnique` | text_module.py:17 | white space, then a stripped core, then white space: this strips to exactly that core |
| `PyStr.StripEmptyIff` | text_module.py:17 | a string strips to empty exactly when it is all white space |
| `PyStr.StripIdempotent` | text_module.py:37 | stripping twice is stripping once |
| `PyStr.Split` | text_module.py:17 | there is always at least one piece; no piece contains the separator |
| `PyStr.JoinSplit` | text_module.py:17 | joining the pieces with the separator gives the string back |
| `PyStr.SplitJoin` | text_module.py:38 | splitting a join of separator-free pieces gives the pieces back |
| `Text.ParseInt` | text_module.py:17 | gives a value exactly for an optional sign followed by one or more digits |
| `Text.ParseShow` | text_module.py:17 | every integer reads back from its decimal rendering |
| `Text.ParseFields` | text_module.py:17-20 | succeeds exactly when every field is blank or an integer literal; then it gives one value per non-blank field |
| `Text.ParseFieldsValues` | text_module.py:17-20 | when it succeeds, each value, in order, is the integer of the non-blank field in the same position |
| `Text.ParseConfigList` | text_module.py:14-20 | if every field is fine, the values of the non-blank fields in order; if any field is neither blank nor an integer, `[]` |
| `Text.ParseConfigListShow` | text_module.py:14-20 | a list of integers written with commas reads back as that list, the empty list included |
| `Text.ParseConfigListTrailingComma` | text_module.py:17 | a trailing comma adds a blank field, and blank fields are skipped |
| `Text.ParseConfigListBlank` | text_module.py:17 | an empty, all-blank or comma-only setting gives `[]` ("no channels", text_module.py:54-57) |
| `Text.KeepHead` | text_module.py:37-39 | one line contributes at most one element, and that element is a stripped line of 25 or more characters |
| `Text.KeepGreetings` | text_module.py:36-40 | no more elements than lines; every element is stripped and 25 or more characters long |
| `Text.KeepGreetingsFrom` | text_module.py:36-40 | every element is the strip of some line |
| `Text.KeepGreetingsSingleLine` | text_module.py:38 | no element contains a line break when no line does |
| `Text.KeepGreetingsAppend` | text_module.py:36-40 | filtering two runs of lines is filtering each and concatenating: lines are kept independently and in order |
| `Text.KeepGreetingsOne` | text_module.py:37-39 | a single line is kept, stripped, exactly when its strip is 25 or more characters long |
| `Text.FilterGreetings` | text_module.py:36-40 | every greeting read from a file is stripped, 25 or more characters long and a single line |
| `Text.FilterGreetingsJoin` | text_module.py:36-40 | greetings written one per line load back as the same list |
| `Text.KeepGreetingsOfGreetings` | text_module.py:36-40 | a list of valid greetings is kept unchanged |
| `Text.FallbackGreetings` | text_module.py:44 | the fallback list has exactly one element, itself a valid greeting |
| `Text.LoadGreetings` | text_module.py:30-44 | a failed read gives a one-element list; every loaded greeting is valid |

## Left out

- main.py is not part of this model: environment loading, logging, the gateway connection, message sending and deletion, signals and task gathering. `join_vc` appears only as the boolean `joined` given to `JoinResult`.
- `SilentAudio` and real playback are left out. Playback is the boolean `audioPlaying`.
- `asyncio.sleep`, `time.time`, `datetime.now(tz)` and the time-zone conversion are left out. The steps return the sleep they would take. Instants and the local time of day are parameters.
- `random.randint` and `random.choice` are left out. The drawn jitter is a parameter bounded by `jitter`.
- `get_jittered_interval` is left out: it is float arithmetic that only feeds sleeps.
- Concurrency is not modelled. The callback and each loop step are atomic. A callback that runs inside the two-second sleep of `leave_voice` is not captured.
- `Voice.VoiceModule.Fault`: an exception is modelled only between two steps. One raised in the middle of a step is not captured, e.g. `vc.play` failing after a join leaves a client connected without keep-alive.
- Voice clients are one flag, "some client is connected". A client dropped by the server, or several clients at once, are not modelled.
- The configuration parsing in `__init__` (`int(config.get(...))`, a missing `TARGET_VCS`, the time-zone name) is left out. The constructor takes the parsed values.
- `Voice.VoiceModule.constructor`: the timing settings are natural numbers. A negative setting, which Python accepts, is not modelled. Neither is the `ValueError` that a negative jitter raises in `random.randint`.
- `Text.ParseInt`: accepts only an optional `+` or `-` followed by ASCII digits. Python's `int` also accepts underscores between digits and non-ASCII decimal digits; those are not modelled.
- `Text.LoadGreetings`: the file's contents come in as a parameter. Opening it, decoding it as UTF-16 and the text module's send loop are not modelled.
