# GenPass password engine, modelled in Dafny

GenPass is a desktop password generator. Its window (`PasswordGenerator`
in `main.py`) holds a small engine under the Qt wiring:

- a **pool** of characters built from the enabled classes (lower case,
  upper case, digits, and the literal symbols `!@#$%&*+-=?`), appended in
  that order;
- **generation**: reject an empty pool, otherwise draw `length` characters
  from the pool with replacement;
- a **strength score** from 0 to 5, one point per content check;
- a **history** of the five newest passwords, newest first;
- an **expiry timer** that clears the displayed password.

The model keeps that split. Pure logic is written as functions and lemmas:
`Charset` covers classes, alphabets and the pool, `Strength` the score,
`History` the list, and `Controls` the slider range, the defaults and the
profile presets. `Generator` holds the drawing loop and the pool-building
method. `Session.PasswordGenerator` is a class whose fields are the
window's state: slider value, checked classes, displayed password,
strength bar, history, and whether the timer runs. Its methods update
those fields in place, as the window's methods do. The class invariant
`Session.Consistent` says that:

- the timer runs exactly while a password is shown;
- the shown password is the newest history entry;
- every entry has a slider length;
- the bar shows the newest entry's score.

`random.choice` is modelled as an arbitrary index into the pool (Dafny's
`:|`). Every guarantee therefore holds for every outcome of the random
source.

Three behaviours of the code worth noting:

- The copy button copies whatever the field shows, even the empty string,
  and always reports success. It is not a no-op when nothing is shown.
- `clear_password` is reached only through the timer's timeout
  (`main.py:30`). No button calls it directly.
- Clearing leaves the strength bar showing the last score.

## Model

| member | source | states |
|---|---|---|
| Charset.Pool | main.py:222-228 | the pool is empty exactly when no class is enabled, which is the condition `generate_password` rejects |
| Charset.PoolMembers | main.py:222-226 | a character is in the pool iff it is in the alphabet of some enabled class, equivalently iff its own class is enabled |
| Charset.PoolOrdered | main.py:222-226 | the classes appear in the pool in the fixed order lower, upper, digit, symbol: no character of a later class precedes one of an earlier class |
| Charset.PoolDistinct | main.py:222-226 | no character occurs twice in the pool (the alphabets are disjoint and repeat-free), so, under a uniform `random.choice`, every allowed character is equally likely |
| Charset.AlphabetIsClass | main.py:223-226 | membership in `ascii_lowercase`, `ascii_uppercase`, `digits` and the symbol literal coincides with the ASCII range checks used for scoring |
| Charset.AlphabetDistinct | main.py:223-226 | each class alphabet lists every character once |
| Generator.Draw | main.py:232 | drawing from a non-empty pool gives exactly `length` characters, each a member of the pool |
| Generator.Generate | main.py:220-232 | fails with EmptyAlphabet iff no class is enabled; otherwise the password has exactly `length` characters, each in the pool and of an enabled class |
| Strength.Contains | main.py:241-244 | the `any(...)` scan is true iff some character of the password is of the given class |
| Strength.Score | main.py:238-245 | the score lies in 0..5 |
| Strength.ScoreCountsCriteria | main.py:239-244 | the score equals the number of the five criteria (length at least 8, has lower, upper, digit, symbol) that the password meets |
| Strength.ScoreFullIff | main.py:239-244 | the score is 5 iff all five criteria hold |
| Strength.ScoreZeroIff | main.py:239-244 | the score is 0 iff the password is shorter than 8 and has no character of any class |
| Strength.ScoreMonotone | main.py:239-244 | a password that is no shorter and contains every character of another scores at least as much |
| Strength.ScorePermutation | main.py:239-244 | rearranging a password's characters never changes its score |
| Strength.ScoreWithinPool | main.py:221-244 | a password drawn from the pool of some classes scores at most one point per enabled class plus the length point; scoring looks at content, not at the request |
| Strength.ScoreExamples | main.py:239-244 | the empty string scores 0, "abcdefg" scores 1, "abcdefgh" scores 2 |
| Strength.FullMarksExample | main.py:239-244 | "aB3!aaaa" scores 5 |
| Strength.LettersOnly | main.py:239-244 | a non-empty all-lower-case password scores 1, plus 1 when at least 8 long |
| History.Recorded | main.py:247-249 | recording gives `[pwd] + old[..min(len(old), 4)]`, of length `min(len(old)+1, 5)`, never more than 5 |
| History.RecordAllKeepsNewest | main.py:247-249 | after any run of recordings, entry i is the i-th newest password, then the older list, cut to five entries |
| History.LastFive | main.py:247-249 | after five or more recordings the list is exactly the last five passwords, newest first, whatever it held before |
| Controls.Clamp | main.py:106 | a slider value is kept in 4..64 and values already in range are kept as they are |
| Controls.PresetOf | main.py:200-218 | the custom entry sets nothing; every other profile sets a length within the slider range 4..64 and at least one class |
| Session.GenerationConsistent | main.py:233-236 | showing, scoring and recording a password of the slider's length with the timer started preserves the window's invariant |
| Session.ClearConsistent | main.py:258-260 | emptying the field and stopping the timer preserves the window's invariant |
| Session.RecordedInRange | main.py:247-249 | recording a password of a slider length keeps every history entry of a slider length |
| Session.SimpleProfileScoreCeiling | main.py:200-206 | a password of the "simple" profile (8 characters, lower case and digits) never scores more than 3 |
| Session.PasswordGenerator.constructor | main.py:105-119 | the window opens with length 12, lower case and digits checked, an empty field, an empty history and the timer stopped |
| Session.PasswordGenerator.SetLength | main.py:105-108 | moving the slider sets the length to the value clamped to 4..64 |
| Session.PasswordGenerator.SetChecked | main.py:114-119 | ticking or unticking a box adds or removes exactly that class |
| Session.PasswordGenerator.ApplyProfile | main.py:200-218 | "simple" sets 8 with lower and digits, "secure" 14 and "ultrasecure" 24 with all four classes, custom leaves length and classes unchanged |
| Session.PasswordGenerator.GeneratePassword | main.py:220-236 | with no class enabled, field, bar, history and timer are unchanged; otherwise the field holds a new password of the slider's length drawn from the pool, the bar its score, the history has it prepended and cut to five, and the timer runs |
| Session.PasswordGenerator.UpdateStrength | main.py:238-245 | the bar shows the score of the given password |
| Session.PasswordGenerator.AddToHistory | main.py:247-249 | the history becomes the recorded list: inserted at the front, then cut to five |
| Session.PasswordGenerator.CopyPassword | main.py:253-256 | what is copied is the displayed text, and nothing in the window changes |
| Session.PasswordGenerator.ClearPassword | main.py:258-260 | the field is emptied and the timer stopped; settings, bar and history are unchanged; on an idle window nothing changes, so clearing twice equals clearing once |
| Session.PasswordGenerator.Expire | main.py:27-30 | the timer's timeout runs `clear_password`: the field is emptied and the timer stopped |

`Session.SevenGenerationsThenClear` is a worked run of the session. It
generates seven passwords with the default settings, then clears and
copies. It shows that the history then holds the last five passwords,
newest first, that the clear leaves the history alone, and that the copy
is the empty string.

## Left out

- Widget construction and layout (`create_home_page`, `create_about_page`, `refresh_ui`, `update_length_label`, the show/hide toggle of the field): presentation only.
- Message boxes (the empty-pool warning, the copy and expiry notices) and the desktop notification of `show_notification`: user-facing I/O with no effect on the engine's state.
- The clipboard write of `copy_password`: `CopyPassword` returns the copied text instead.
- `updater`: HTTP requests, zip extraction and directory creation.
- `load_language` and `change_language`: JSON file reading and translation tables. Profiles are keyed by a tag (`Controls.Profile`) instead of by their translated labels.
- The timer's 30-second interval and the Qt event loop: only whether the timer runs is modelled. The Qt timer repeats, but its first timeout stops it through `clear_password`. `Expire` is that timeout.
- The quality and distribution of `random.choice`: each draw is an arbitrary index into the pool.
- The history list widget: it redisplays `history` after each recording and holds no state of its own.
- Session.PasswordGenerator.constructor: the strength bar starts at 0, whereas Qt shows a bar that has never been set as blank.
- Strength.Score: it classifies characters by ASCII ranges, whereas Python's `islower`, `isupper` and `isdigit` also accept non-ASCII letters and digits. The two agree on every pool character, so on every generated password.
