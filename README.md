# Vim command line: execution router and Neovim delegation

This project models the command-line core of the VS Code Vim extension,
`src/cmd_line/main.ts`, in Dafny, and proves what it does.

- **`runCmdLine`** is the execution router. It gets the text typed on the
  command line. Empty or undefined text does nothing. Otherwise it parses the
  text. An empty parse does nothing. A command marked `neovimCapable` is
  delegated to Neovim. Any other command is executed locally. Any exception
  (from the parser or from the local `execute`) makes it delegate the
  original text to Neovim instead. Every rejection of the delegation is
  caught and logged.
- **`run`** is the delegation. It starts an embedded Neovim and loads the
  editor's text into it, split at `'\n'`. It sets `.` and `'>` to the cursor,
  `'<` to the selection start and `'x` to each mark, one line down with the
  column unchanged. It types `:` + command + `'\n'` one character per
  `input` call. If `getMode` reports `blocking`, it sends one `<esc>`. It
  then replaces the editor's text with Neovim's lines joined by `'\n'` and
  puts a zero-width selection at Neovim's cursor, one line up. It runs
  `indentationToSpaces` when `expandtab` is set. Finally it quits Neovim and
  kills the process.

Files:

- `wrappers.dfy`: `Option`.
- `text.dfy` (module `Text`): JavaScript's `split` and `join` for a
  one-character separator, with both round trips.
- `session.dfy` (module `Session`): `run`.
  - The events of a run, one per call made to Neovim or to the editor.
  - `Script`, the full ordered sequence of events when nothing fails.
  - Class `Editor`: the host editor's text and selection, its cursor,
    selection start and marks, and the `trace` of events. `Editor.Run`
    performs the script step by step, as a sequence of phase methods with
    loops over the marks and over the keystrokes.
  - Neovim's answers (`Replies`: the blocking flag, the buffer lines, the
    cursor) are parameters. `failAt` optionally names the awaited step that
    rejects.
- `script_properties.dfy` (module `ScriptProperties`): what `Script`
  guarantees. This covers keystrokes, positions, the escape, teardown, the
  host state after a run, and the buffer round trip.
- `router.dfy` (module `Router`): `runCmdLine` as a function from an
  abstract parser to the list of actions taken.

How a run relates to the script: `Editor.Run` ensures that the trace grows by
`Sent(script, failAt)` and that the editor's text and selection become
`Effects(old, Completed(script, failAt))`. When step `k` is an awaited step
that rejects, `Sent` is the script up to and including step `k`, and
`Completed` is the script before step `k`. Otherwise both are the whole
script. The lemmas of `ScriptProperties` are stated about these functions.

In three places the code behaves differently from what a reader might
expect; the model follows the code:

- Teardown (`quit`, `kill`) is not unconditional. It happens only when no
  earlier step fails (`TeardownOnlyOnSuccess`).
- A failed local execution does not exclude delegation. The command is then
  both executed and delegated (`BothOnlyWhenLocalFails`).
- The row read back from `getpos` is used as `row - 1` with no check for a
  row of 0 or less (`FromNvim`).

## Model

| member | source | states |
|---|---|---|
| `Text.Split` | src/cmd_line/main.ts:26 | `text.split('\n')` gives one more piece than the text has newlines, and no piece contains a newline |
| `Text.JoinSplit` | src/cmd_line/main.ts:26-48 | joining with `'\n'` the pieces of a split at `'\n'` gives back the original text |
| `Text.SplitJoin` | src/cmd_line/main.ts:45-48 | splitting the join of one or more newline-free lines gives back exactly those lines |
| `Session.ToNvim` | src/cmd_line/main.ts:28-52 | a position pushed one line down (column kept) and read back one line up is the same position |
| `Session.MarkPositions` | src/cmd_line/main.ts:31-33 | the mark loop makes exactly one `setpos` per mark |
| `Session.MarkPositionsAt` | src/cmd_line/main.ts:31-33 | the i-th `setpos` of the mark loop sets register `'` + name of the i-th mark to its line + 1 and its column |
| `Session.InputEach` | src/cmd_line/main.ts:36-38 | the key loop makes exactly one `input` call per character |
| `Session.InputEachAt` | src/cmd_line/main.ts:36-38 | the i-th `input` call sends the i-th character alone |
| `Session.KeystrokesSpellCommand` | src/cmd_line/main.ts:35-38 | the keystrokes are `:`, then each character of the command in order, then `'\n'`: `|command| + 2` calls |
| `Session.Editor.Step` | src/cmd_line/main.ts:25-58 | one call: it is logged; an awaited call that rejects ends the run with no effect; otherwise its effect on the editor is applied |
| `Session.Editor.PushBuffer` | src/cmd_line/main.ts:25-26 | `getCurrentBuf`, then `setLines` with the editor's text split at `'\n'` |
| `Session.Editor.PushCursor` | src/cmd_line/main.ts:28-30 | `setpos` of `.` and `'>` from the cursor and of `'<` from the selection start, in that order |
| `Session.Editor.PushMarks` | src/cmd_line/main.ts:31-33 | the loop over the marks issues their `setpos` calls in list order, stopping at a rejection |
| `Session.Editor.PushState` | src/cmd_line/main.ts:25-33 | the buffer, then the cursor and selection bounds, then the marks |
| `Session.Editor.TypeCommand` | src/cmd_line/main.ts:35-38 | the loop over `":" + command + "\n"` issues one `input` per character, stopping at a rejection |
| `Session.Editor.WaitForMode` | src/cmd_line/main.ts:41-43 | `getMode`, then one `<esc>` exactly when the reply is blocking |
| `Session.Editor.ReadText` | src/cmd_line/main.ts:45-49 | `getLines`, then the editor's whole text becomes the lines joined by `'\n'` |
| `Session.Editor.ReadCursor` | src/cmd_line/main.ts:51-52 | `getpos(".")`, then the selection becomes zero-width at (row - 1, column) |
| `Session.Editor.TearDown` | src/cmd_line/main.ts:54-58 | `indentationToSpaces` when `expandtab` is set, then `quit` and `kill`; the run resolves exactly when no awaited step failed |
| `Session.Editor.ReadBack` | src/cmd_line/main.ts:41-58 | everything after the keystrokes, in order |
| `Session.Editor.Run` | src/cmd_line/main.ts:12-61 | the trace grows by the script up to the failing step (or all of it), the editor changes by exactly the completed steps, and `run` resolves exactly when no awaited step fails |
| `ScriptProperties.InputsOfScript` | src/cmd_line/main.ts:35-43 | the only `input` calls of a run are the keystrokes of `:` + command + `'\n'`, then one `<esc>` when Neovim blocks |
| `ScriptProperties.PositionsOfScript` | src/cmd_line/main.ts:28-33 | the `setpos` calls are exactly `.`, `'>` from the cursor and `'<` from the selection start, each one line down with the column unchanged, then one per mark in list order |
| `ScriptProperties.EscapeOnlyWhenBlocking` | src/cmd_line/main.ts:41-43 | an `<esc>` is sent exactly once when `getMode` reports blocking and never otherwise |
| `ScriptProperties.EscapeBeforeReadback` | src/cmd_line/main.ts:41-48 | every `<esc>` comes before the `getLines` readback |
| `ScriptProperties.TeardownOnlyOnSuccess` | src/cmd_line/main.ts:57-58 | `quit` and `kill` are sent if and only if no awaited step failed, and are then the last two steps |
| `ScriptProperties.HostAfterRun` | src/cmd_line/main.ts:45-52 | after a run with no failure, the editor's text is Neovim's lines joined by `'\n'` and the selection is zero-width at (row - 1, column) of `getpos` |
| `ScriptProperties.UntouchedBufferRoundTrip` | src/cmd_line/main.ts:26-48 | if Neovim returns the lines it was given, the editor ends with its original text |
| `ScriptProperties.ReadbackLinesVerbatim` | src/cmd_line/main.ts:45-48 | after a run with no failure, the editor's text splits into exactly Neovim's lines, in order |
| `ScriptProperties.FailureBeforeReplaceLeavesHost` | src/cmd_line/main.ts:25-49 | a run that fails before the text replacement leaves the editor's text and selection as they were |
| `Router.Delegate` | src/cmd_line/main.ts:99-109 | a delegation calls `run` with the command and then logs; the log is the rejection exactly when `run` rejects |
| `Router.RunCmdLine` | src/cmd_line/main.ts:88-112 | empty or undefined input does nothing; `execute` is attempted exactly for local commands; an `execute` comes before any `run`; every `run` is followed by a log of its outcome, so the router never fails |
| `Router.RunsExactlyWhenDelegated` | src/cmd_line/main.ts:93-110 | `run` is called exactly once, with the unprefixed command, when the parse throws, the command is `neovimCapable`, or the local `execute` fails; it is never called otherwise |
| `Router.BothOnlyWhenLocalFails` | src/cmd_line/main.ts:103-110 | a command is both executed locally and delegated exactly when its local execution fails |
| `Router.NeverNeither` | src/cmd_line/main.ts:93-110 | a present command whose parse is not empty is executed locally or delegated |

## Left out

- `showCmdLine` (the VS Code input box and status bar text) is not modelled. It is user interface.
- Spawning `nvim`, `attach` and the `request`/`notification` handlers, which only log, are not modelled. They are process and transport plumbing. A failure of `attach` happens before any modelled step, so `failAt` cannot express it.
- The parser and `cmd.execute` are abstract. Their outcome is the `parse` function parameter.
- `Router.RunCmdLine`: whether `run` resolves is the `runSucceeds` parameter. It is not derived from `Session.Editor.Run`, because a function cannot call a method.
- The `0` buffer number and `false` offset of the `setpos` argument list are not part of the `SetPos` event, because they are constants.
- `getpos` is modelled as answering a row and a column. The other entries of its array and a malformed reply are not modelled.
- VS Code's `Range` and `Selection` construction is not modelled. `TextEditor.replace` is modelled as replacing the whole text. A `Position` with a negative line, which VS Code refuses, is kept as is: in the program a `getpos` row of 0 or less throws at the `Selection` construction, so `run` rejects before `quit` and `kill`, and the model does not capture that rejection.
- The effect of `indentationToSpaces` on the text is not modelled. The step is logged, and its failure is modelled, because it is a foreign editor command.
- `async`/`await` scheduling is flattened into sequential steps. A rejection of the unawaited `nvim.quit()` is not modelled, because it cannot reject `run`.
- What the embedded Neovim does with the keystrokes is not modelled. Its answers are the `Replies` parameter.
