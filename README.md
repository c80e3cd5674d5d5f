# wlogoutbar, modelled in Dafny

wlogoutbar is a small logout/power popup for Wayland compositors. It is a
GTK window on the layer shell with one button per action (logout, reboot,
shutdown, sleep, hybrid sleep, hibernate, lock). This project models the
program's decision logic and proves properties of it:

- how a button's command line becomes a child process (`launch`);
- how the theme and seat presets rewrite the icon and command flags;
- how the `-order` words become the list of buttons;
- how the position and `-f` flags choose the window's anchors and box
  orientations, and how `-x` chooses its layer and exclusive zone;
- where each button's picture is loaded from;
- the timer that closes the popup 500 ms after the cursor leaves;
- single-instance toggling: the temp directory, the lock file holding the
  PID, and the decision to signal the running instance and exit.

Modules:

- `GoStrings` and `GoStrconv` model the parts of Go's `strings` and
  `strconv` packages the program uses, with their own lemmas. The
  `strconv` functions assume a 64-bit `int`.
- `Launcher` models `launch` in tools.go.
- `Presets` models the preset blocks and the order loop of `main`.
- `Window` models the layer-shell settings and the icon choice.
- `Dismissal` models the close timer, as pure functions and as a class
  `DismissTimer`.
- `Instance` models the lock file and the toggle decision.

Strings are sequences of characters. Environment variables are a `map`.
The results of the file system (open, `flock`, truncate, write, read) are
inputs to the decision functions.

On three points the code does something a reader might not expect:

- A failed lock always ends the process with status 0, whatever the error.
- A picture that fails to load is replaced by the theme's `unknown` icon.
  `image-missing` is only asked for when the icon flag is empty.
- Every space-separated token holding `=` is exported to the child's
  environment, not only the tokens in front of the program.

## Model

| member | source | states |
|---|---|---|
| GoStrings.Count | tools.go:173 | the count of `=` is zero exactly when the text holds no `=` |
| GoStrings.IndexOf | tools.go:164 | index of the first `%`, or -1 exactly when there is none; no `%` occurs before it |
| GoStrings.IndexOfAfter | tools.go:164 | the first `%` after a `%`-free prefix is found at the prefix's length |
| GoStrings.HasPrefix | tools.go:141 | true exactly when the prefix fits and agrees with the text position by position; then the text is the prefix followed by the rest |
| GoStrings.TrimPrefix | main.go:300 | with the prefix present, prefix plus result is the input; otherwise the input is kept |
| GoStrings.Split | tools.go:170 | one more piece than separators, and no piece holds the separator |
| GoStrings.JoinSplit | tools.go:170 | rejoining the pieces with the separator gives back the text |
| GoStrings.SplitJoin | tools.go:170 | separator-free pieces are recovered by splitting their join |
| GoStrings.SplitFree | tools.go:170 | a separator-free text is one piece |
| GoStrings.SplitPrefix | tools.go:170 | a separator-free prefix followed by the separator becomes the first piece |
| GoStrings.SplitKeeps | tools.go:170-181 | a character other than the separator is in the text exactly when it is in some piece |
| GoStrings.JoinKeeps | tools.go:170-181 | the same for a join of pieces |
| GoStrings.IsSpace | main.go:149 | Go's `unicode.IsSpace`: on ASCII exactly the space and `\t` through `\r`; every other white space character is U+0085 or above |
| GoStrings.Fields | main.go:149 | fields are non-empty and hold no white space; a text starting with a non-space starts its first field |
| GoStrings.FieldsConcat | main.go:149 | the fields together are exactly the non-space characters of the text |
| GoStrings.FieldsJoin | main.go:149 | words joined by single spaces give back those words |
| GoStrings.FieldsWord | main.go:149 | a word followed by nothing or by a space is the first field |
| GoStrconv.DigitChar | tools.go:48 | a digit value becomes the character with that value |
| GoStrconv.Decimal | tools.go:48 | the digits of a natural number: non-empty, only digits, no leading zero, one digit exactly below 10 |
| GoStrconv.Itoa | tools.go:48 | a minus sign exactly for negative values, then only digits |
| GoStrconv.Atoi | tools.go:28 | a result only for a sign followed by digits, always within 64-bit `int`; the empty text and a sign alone are errors |
| GoStrconv.DecimalValue | tools.go:28-48 | the digits of `n` have the value `n` |
| GoStrconv.AtoiItoa | tools.go:28-48 | reading back the text of any 64-bit `int` gives that number |
| GoStrconv.AtoiNonNegative | tools.go:28-48 | the same for non-negative numbers |
| GoStrconv.AtoiNegative | tools.go:28-48 | the same for negative numbers, down to the most negative `int` |
| Launcher.TrimFieldCodes | tools.go:162-168 | no `%`: unchanged; cut exactly when the first `%` is at index 0 fails; the cut text is a `%`-free prefix one shorter than the index of the `%` |
| Launcher.Assignments | tools.go:179-185 | only tokens holding `=`, never more than the tokens; empty exactly when no token holds `=` |
| Launcher.AssignmentsComplete | tools.go:179-185 | every token holding `=` is exported, and no token more often than it occurs |
| Launcher.LastAssignment | tools.go:180-186 | index of the last token holding `=`, -1 when there is none; no later token holds `=` |
| Launcher.IsAssignment | tools.go:181 | a token is an assignment exactly when some position in it holds `=` |
| Launcher.ParseCommand | tools.go:161-189 | reference definition of `launch`: it panics at the cut exactly when the first `%` is at index 0, and a started program never holds `=`; ParseStart, PanicsIff and ParseWithoutAssignments state the rest |
| Launcher.ParseLine | tools.go:170-189 | reference definition of the part after the cut: its only panic is the missing program, and the program it starts holds no `=`; ParseStart, PanicsIff and LineWithoutAssignments state the rest |
| Launcher.Launch | tools.go:161-189 | the method with the source's `%` cut, split, count and scan computes `ParseCommand` |
| Launcher.LaunchLine | tools.go:170-189 | the part after the cut computes `ParseLine`, panicking where the index is out of range |
| Launcher.ScanAssignments | tools.go:179-186 | the loop collects exactly `Assignments` and the index of the last one (0 when none) |
| Launcher.ScanStep | tools.go:180-185 | one more token scanned extends the assignments and moves the last index exactly when it holds `=` |
| Launcher.CountedAssignments | tools.go:173-179 | the count of `=` is positive exactly when some token holds `=` |
| Launcher.ParseWithoutAssignments | tools.go:173-189 | without `=` nothing is exported, the first token runs and the others are its arguments |
| Launcher.LineWithoutAssignments | tools.go:173-189 | the same for a line already cut |
| Launcher.DoubleSpaceTokens | tools.go:170 | two spaces after the first token give an empty second token |
| Launcher.DoubleSpaceEmptyToken | tools.go:170-189 | that empty token becomes an empty first argument |
| Launcher.ParseStart | tools.go:170-189 | for a started command: the program is the token right after the last `=` token, the tokens after it are its arguments, every `=` token anywhere is exported, and neither the program nor its arguments hold `=` |
| Launcher.PanicsIff | tools.go:166-189 | panics exactly when the first `%` is at index 0, or when the last token holds `=` |
| Launcher.ParseLeadingAssignments | tools.go:161-189 | leading assignments, a program, an argument and a field code give the assignments, the program and the argument |
| Launcher.SplitFour | tools.go:170 | four space-free words joined by spaces split into those words |
| Launcher.JoinFour | tools.go:170 | the join of four words is the words with a space between each |
| Launcher.ParseExample | tools.go:161-189 | `FOO=1 BAR=2 mycommand --flag %U` starts `mycommand` with `--flag` and exports `FOO=1` and `BAR=2`; the proof steps `ExampleText` and `ExampleWords` only rewrite the literal |
| Launcher.TrimTrailingFieldCode | tools.go:162-168 | a field code after a space is removed together with that space |
| Launcher.LeadingAssignments | tools.go:172 | the length of the run of `=` tokens at the start |
| Launcher.ParsePrepended | tools.go:172-189 | corrected parse: the tokens are exported assignments, the program, then the arguments; it fails exactly when every token holds `=` |
| Launcher.ParseCommandPrepended | tools.go:161-189 | corrected `launch`: the cut fails exactly as before; when no `=` token follows the program it agrees with the source's `launch`; it only starts lines the source also starts or panics on for a missing program |
| Launcher.PrependedAgrees | tools.go:172-189 | when no `=` token follows the program, the corrected and the written parse agree |
| Launcher.AssignmentsSplit | tools.go:179-186 | with assignments exactly in front, all of them are exported and the last one precedes the program |
| Launcher.TrailingOptionPanics | tools.go:179-189 | a program with one `=` option: the source panics, the corrected parse runs it |
| Launcher.SwaylockColorPanics | tools.go:179-189 | `swaylock --color=000000` panics as written and runs `swaylock` when corrected |
| Launcher.InnerAssignmentDropsProgram | tools.go:179-189 | `A=1 cmd x=y z` runs `z` and exports `x=y` as written; corrected, it runs `cmd x=y z` |
| Launcher.InnerAssignmentTokens | tools.go:179-186 | the scans on those four tokens |
| Launcher.ChildEnv | tools.go:191-195 | the environment is replaced exactly when something is exported |
| Launcher.ChildSeesAssignments | tools.go:191-195 | the child sees the inherited entries, in order, followed by the exported ones |
| Presets.ParseAction | main.go:151-165 | a recognised word is the word of its action |
| Presets.ActionNameRoundTrip | main.go:151-165 | every action's word is recognised as that action |
| Presets.ApplyTheme | main.go:91-107 | `dark`/`light` set all seven icons to the embedded icon of its stem for that theme; other themes keep the icons |
| Presets.PresetIconSharing | main.go:95-97 | hybrid sleep and hibernate share one icon; sleep has another |
| Presets.ApplySeat | main.go:109-121 | `systemd`/`elogind` set exactly the five power commands to the seat's program with the action's verb; logout and lock commands never change |
| Presets.SeatPresetsAgree | main.go:109-121 | the two seat presets differ only in the program name |
| Presets.Configure | main.go:91-121 | both presets applied; label, order, theme and seat untouched |
| Presets.Known | main.go:149-167 | the recognised words as actions, never more than the words |
| Presets.ButtonFor | main.go:152-165 | a button takes its own action's icon, label and command flag |
| Presets.BuildButtons | main.go:149-167 | one button per recognised word of `strings.Fields(order)`, in order, holding that action's icon, label and command |
| Presets.KnownAppend | main.go:150-167 | words are handled one at a time, so order is kept and repeats give repeated buttons |
| Presets.KnownSingle | main.go:151-166 | an unknown word adds no button, a known word adds exactly its own |
| Presets.KnownAll | main.go:150-167 | with every word known, the i-th button belongs to the i-th word |
| Presets.DefaultWordsPlain | main.go:52 | the default words are non-empty and hold no white space |
| Presets.DefaultWordsKnown | main.go:151-165 | each default word is recognised |
| Presets.DefaultOrder | main.go:52 | the default `-order` text: its fields are exactly the seven default words, in order |
| Presets.DefaultOrderActions | main.go:52 | the default order gives the seven actions once each, in declaration order |
| Window.EdgeOf | main.go:197-216 | only `top`, `bottom`, `left` and `right` name an edge |
| Window.WindowLayout | main.go:197-230 | an edge position anchors its edge, never the opposite one, and the two side edges exactly when `-f`; the buttons run along the edge, the boxes crosswise; `center` anchors all edges with `-f` and none without; other values anchor nothing and keep the horizontal zero value |
| Window.FullBarThreeEdges | main.go:197-222 | a full bar on an edge is anchored to exactly three edges |
| Window.EdgeBoxesCross | main.go:204-222 | on an edge the two boxes have different orientations |
| Window.StackingFor | main.go:237-243 | overlay layer and zone -1 exactly without `-x`; top layer and zone 0 with it |
| Window.PixbufSource | tools.go:140-159 | a name starting with `/` is loaded as a file, any other from the icon theme |
| Window.IconRequest | main.go:297-306 | `embed:` names the embedded icon with the prefix removed; an empty flag asks for `image-missing`; anything else goes to `createPixbuf` |
| Window.IconRequestName | main.go:297-306 | every loadable source is asked for by its own name |
| Window.IconNameRequest | main.go:297-306 | every non-empty flag is the name of the source it asks for |
| Window.ButtonIcon | main.go:307-310 | a source that fails to load is replaced by the theme's `unknown` icon |
| Window.PresetIconsEmbedded | main.go:298-300 | under a preset, every button's picture is the embedded icon for that theme |
| Dismissal.OnLeave | main.go:252-258 | leaving arms a fresh timer and remembers it; the earlier timer stays pending |
| Dismissal.CancelClose | tools.go:115-120 | the remembered timer is removed and the handle cleared; nothing changes with no handle |
| Dismissal.OnFire | main.go:253-257 | a firing timer requests quit, clears the handle, and only that source is dropped; every other pending source stays |
| Dismissal.CancelIdempotent | tools.go:115-120 | cancelling twice is cancelling once |
| Dismissal.Step | main.go:252-262 | every cursor event and expiry keeps the timer state well formed |
| Dismissal.Run | main.go:252-262 | so does any sequence of them |
| Dismissal.LeaveTidyIff | main.go:252-258 | a leave keeps at most one pending close exactly when none was pending |
| Dismissal.AlternatingStaysTidy | main.go:252-262 | alternating leaves and enters keep at most the remembered close pending |
| Dismissal.StaleTimerQuits | main.go:252-262 | leave, leave, enter leaves the first timer pending, and it still quits |
| Dismissal.OnLeaveCancelling | main.go:252-258 | corrected leave: cancel, then arm; one pending close stays one |
| Dismissal.StepCancelling | main.go:252-262 | the corrected handlers keep the state well formed |
| Dismissal.RunCancelling | main.go:252-262 | so does any sequence of them |
| Dismissal.CancellingStaysTidy | main.go:252-262 | corrected: any event sequence keeps at most one close pending; nothing after a final enter, exactly one after a final leave |
| Dismissal.ClosesOnce | main.go:252-258 | corrected: after a final leave exactly one close fires, and nothing is pending afterwards |
| Dismissal.DismissTimer.constructor | main.go:28 | no timer is remembered or pending at start |
| Dismissal.DismissTimer.Leave | main.go:252-258 | the leave handler's new state is `OnLeave` of the old |
| Dismissal.DismissTimer.Cancel | tools.go:115-120 | `cancelClose`'s new state is `CancelClose` of the old |
| Dismissal.DismissTimer.Fire | main.go:253-257 | the timeout callback's new state is `OnFire` of the old, and it returns false |
| Instance.Getenv | tools.go:62 | an unset variable reads as the empty string; a non-empty result is the variable's own value |
| Instance.FirstSetPriority | tools.go:61-71 | a variable wins exactly when it is set and every earlier one is empty |
| Instance.FirstSetFallback | tools.go:61-71 | with all variables empty the fallback wins |
| Instance.TempDir | tools.go:61-72 | the first non-empty of TMPDIR, TEMP, TMP, XDG_RUNTIME_DIR, else `/tmp`; never empty |
| Instance.TempDirIgnoresOthers | tools.go:61-72 | no other variable changes the choice |
| Instance.CreateLockFile | tools.go:35-59 | success exactly when every step succeeded, and then the file holds the PID's decimal text; a failure before the truncation leaves the file as it was |
| Instance.GetLockFilePid | tools.go:22-30 | a read error gives no PID; a PID is always a 64-bit `int` |
| Instance.LockFileRoundTrip | tools.go:28-53 | after a successful lock the file holds the PID without a newline, and reading it back gives the PID |
| Instance.Toggle | main.go:138-146 | start up exactly when the lock was taken; otherwise exit 0, sending SIGTERM exactly when the stored PID parsed, and to that PID |
| Instance.SecondStartStopsFirst | main.go:137-146 | a second start finds the lock held, signals the first start's PID and exits 0 |
| Instance.UnreadableLockExits | main.go:139-145 | an unreadable or empty lock file: exit 0 without a signal |

## Left out

- GTK and layer-shell calls: window, boxes, buttons, images, margins, keyboard mode, `ShowAll` and the main loop. Only the values they are given are modelled.
- The alignment boxes (main.go:282-288) and the CSS loading (`loadCssStyle`, which always returns nil because inner `err`s shadow the outer one) are not modelled: they only configure widgets.
- Decoding of embedded SVGs, image files and theme icons. Whether a load succeeds is the `loads` input of `Window.ButtonIcon`.
- `mapOutputs` and the `-o` monitor choice: sway IPC and GDK monitor geometry.
- The SIGTERM goroutine, and the Escape key and window destroy handlers: signals and toolkit events.
- `os.Exit`, `syscall.Kill`, `flock`, the file operations and `exec.Command(...).Start()` are not performed. Their outcomes are inputs (`LockStep`, `read`) or outputs (`Startup`, `Outcome`).
- The lock file path `filepath.Join(tempDir(), "wlogoutbar.lock")`: path cleaning is not modelled, only the directory choice.
- The `flag` package: the flag values are inputs (`Presets.Flags`).
- Instance.CreateLockFile: a failed write is taken to leave an empty file; a partial write is not modelled.
- GoStrconv.Atoi: it only tells whether parsing succeeded, not which error Go reports. A 32-bit `int` platform is not modelled.
- Go indexes strings by byte and the model by character. Searching for the ASCII `%`, `=`, space and `/` the code looks for gives the same answers either way.
- Launcher.TrimFieldCodes: the model removes the whole character before `%`, where Go's `command[:cutAt-1]` removes only its last byte; for a multi-byte character (`x é%U`) Go keeps the character's leading bytes.
- Window.PixbufSource: a missing default icon theme makes `createPixbuf` exit the process (`log.Fatal`, tools.go:150-153); the model assumes a theme is always available.
- Launcher.ChildEnv: how `exec` treats duplicate variable names is not modelled.
- The order in which GTK delivers leave and enter events is not modelled: any event sequence is allowed. The 500 ms delay is not modelled either: the expiry of a timeout is an `Expire` event.
- Presets.ApplyTheme and Presets.ApplySeat return the new flag values; the source overwrites the flag variables in place.
- Presets.BuildButtons returns the list; the source appends to the global `buttons`, which is empty at that point.
- Presets.ApplyTheme builds each preset name as `embed:`, the stem, `-` and the theme; the source writes the same strings out in full.

## Findings

| source | as written | input that shows it | evidently intended | confidence | as-written member | corrected member |
|---|---|---|---|---|---|---|
| tools.go:179-189 | every token holding `=` is exported, and the program is the token after the last one | `swaylock --color=000000` panics with an index out of range; `A=1 cmd x=y z` runs `z` and exports `x=y` | only assignments in front of the program are exported ("prepended env variables"), and the rest are its arguments | high, not executed | Launcher.SwaylockColorPanics, Launcher.InnerAssignmentDropsProgram | Launcher.ParsePrepended, Launcher.PrependedAgrees |
| main.go:252-258 | a leave arms a new timer and overwrites `src` without removing the earlier timer | leave, leave, enter: the first timer stays pending and closes the popup with the cursor inside | a leave cancels the remembered close before arming a new one | medium, not executed | Dismissal.StaleTimerQuits, Dismissal.LeaveTidyIff | Dismissal.OnLeaveCancelling, Dismissal.CancellingStaysTidy |
