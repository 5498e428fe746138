/** The delegation script `run` of src/cmd_line/main.ts: it pushes the editor's
    text, cursor, selection start and marks into an embedded Neovim, types the
    command into it, reads the buffer and cursor back and tears Neovim down.
    Neovim is modelled by the calls made to it (events appended to a trace)
    and by the replies it gives (a parameter); the host editor by its text
    and selection, which the readback overwrites. */
module Session {
  import opened Wrappers
  import opened Text

  /** An editor position: zero-based line and column. */
  datatype Position = Position(line: int, character: int)

  /** A selection from `anchor` to `active`; zero-width when they are equal. */
  datatype Selection = Selection(anchor: Position, active: Position)

  /** A named mark of the history tracker. */
  datatype Mark = Mark(name: string, position: Position)

  /** A position as Neovim's `setpos`/`getpos` see it: one-based row, column as is. */
  datatype NvimPos = NvimPos(row: int, col: int)

  /** Editor coordinates to Neovim's: one line down, column unchanged. */
  function ToNvim(p: Position): (q: NvimPos)
    ensures FromNvim(q) == p
  {
    NvimPos(p.line + 1, p.character)
  }

  /** Neovim coordinates back to the editor's, with no guard on the row. */
  function FromNvim(q: NvimPos): Position
  {
    Position(q.row - 1, q.col)
  }

  /** The key sent to leave a blocking mode. */
  const Escape: string := "<esc>"

  /** One externally visible step of `run`, in the order it happens. */
  datatype Event =
    | GetCurrentBuf                               // nvim.getCurrentBuf()
    | SetLines(lines: seq<string>)                // buf.setLines(0, -1, true, lines)
    | SetPos(register: string, pos: NvimPos)      // callFunction("setpos", [register, [0, row, col, false]])
    | Input(keys: string)                         // nvim.input(keys)
    | GetMode                                     // nvim.getMode()
    | GetLines                                    // buf.getLines(0, -1, false)
    | Replace(text: string)                       // TextEditor.replace over the whole document
    | GetPos(register: string)                    // callFunction("getpos", [register])
    | Select(position: Position)                  // vimState.editor.selection := zero-width at position
    | IndentationToSpaces                         // executeCommand("editor.action.indentationToSpaces")
    | Quit                                        // nvim.quit(), not awaited
    | Kill                                        // proc.kill()
  {
    /** `run` awaits this step, so a failure of it rejects `run`. (A synchronous
        throw, such as a negative line at the cursor readback, would also reject
        `run`; the model does not capture that.) */
    predicate Awaited()
    {
      !(Select? || Quit? || Kill?)
    }
  }

  /** What the embedded Neovim answers: the `blocking` flag of `getMode`, the
      lines of `getLines` and the row and column of `getpos(".")`. */
  datatype Replies = Replies(blocking: bool, lines: seq<string>, position: NvimPos)

  /** The editor state `run` reads before it talks to Neovim. */
  datatype Snapshot = Snapshot(text: string, cursor: Position, cursorStart: Position, marks: seq<Mark>)

  /** The editor state `run` writes. */
  datatype HostState = HostState(text: string, selection: Selection)

  /** Register naming mark `name`. */
  function MarkRegister(name: string): string
  {
    "'" + name
  }

  /** One `setpos` per mark, in the order of the list. */
  function MarkPositions(marks: seq<Mark>): (events: seq<Event>)
    ensures |events| == |marks|
  {
    if marks == [] then []
    else [SetPos(MarkRegister(marks[0].name), ToNvim(marks[0].position))] + MarkPositions(marks[1..])
  }

  /** The `i`-th mark gives the `i`-th `setpos`, on register `'name`, one line down. */
  lemma {:induction false} MarkPositionsAt(marks: seq<Mark>, i: nat)
    requires i < |marks|
    ensures MarkPositions(marks)[i]
         == SetPos("'" + marks[i].name, NvimPos(marks[i].position.line + 1, marks[i].position.character))
  {
    if i > 0 {
      MarkPositionsAt(marks[1..], i - 1);
    } else if |marks| > 1 {
      MarkPositionsAt(marks[1..], 0);
    }
  }

  /** One `input` call per character of `keys`, in order. */
  function InputEach(keys: string): (events: seq<Event>)
    ensures |events| == |keys|
  {
    if keys == [] then [] else [Input([keys[0]])] + InputEach(keys[1..])
  }

  /** The `i`-th character is sent by the `i`-th `input` call, alone. */
  lemma {:induction false} InputEachAt(keys: string, i: nat)
    requires i < |keys|
    ensures InputEach(keys)[i] == Input([keys[i]])
  {
    if i > 0 {
      InputEachAt(keys[1..], i - 1);
    } else if |keys| > 1 {
      InputEachAt(keys[1..], 0);
    }
  }

  /** The keystrokes that type `command` on Neovim's command line. */
  function Keystrokes(command: string): seq<Event>
  {
    InputEach(":" + command + "\n")
  }

  /** The keystrokes are `:`, the characters of the command, then a newline,
      one per `input` call: `|command| + 2` calls in all. */
  lemma KeystrokesSpellCommand(command: string)
    ensures |Keystrokes(command)| == |command| + 2
    ensures Keystrokes(command)[0] == Input(":")
    ensures Keystrokes(command)[|command| + 1] == Input("\n")
    ensures forall i :: 0 <= i < |command| ==> Keystrokes(command)[i + 1] == Input([command[i]])
  {
    var keys := ":" + command + "\n";
    InputEachAt(keys, 0);
    InputEachAt(keys, |command| + 1);
    forall i | 0 <= i < |command|
      ensures Keystrokes(command)[i + 1] == Input([command[i]])
    {
      InputEachAt(keys, i + 1);
    }
  }

  /** Loading the editor's text, split at newlines, as Neovim's whole buffer. */
  function LoadBuffer(s: Snapshot): seq<Event>
  {
    [GetCurrentBuf, SetLines(Split(s.text, '\n'))]
  }

  /** The cursor goes to `.` and `'>`, the selection start to `'<`. */
  function CursorPositions(s: Snapshot): seq<Event>
  {
    [SetPos(".", ToNvim(s.cursor)), SetPos("'>", ToNvim(s.cursor)), SetPos("'<", ToNvim(s.cursorStart))]
  }

  /** Loading the buffer, then the cursor, the selection bounds and the marks. */
  function Setup(s: Snapshot): seq<Event>
  {
    LoadBuffer(s) + (CursorPositions(s) + MarkPositions(s.marks))
  }

  /** The escape sent when Neovim reports it is blocking. */
  function Unblock(r: Replies): seq<Event>
  {
    if r.blocking then [Input(Escape)] else []
  }

  /** Reading Neovim's buffer back as the editor's whole text. */
  function TextReadback(r: Replies): seq<Event>
  {
    [GetLines, Replace(Join(r.lines, '\n'))]
  }

  /** Reading Neovim's cursor back as a zero-width selection. */
  function CursorReadback(r: Replies): seq<Event>
  {
    [GetPos("."), Select(FromNvim(r.position))]
  }

  /** Reading the buffer and the cursor back into the editor. */
  function Readback(r: Replies): seq<Event>
  {
    TextReadback(r) + CursorReadback(r)
  }

  /** The re-indentation asked for by the `expandtab` setting. */
  function PostProcess(expandtab: bool): seq<Event>
  {
    if expandtab then [IndentationToSpaces] else []
  }

  /** Everything after the keystrokes. */
  function Finish(r: Replies, expandtab: bool): seq<Event>
  {
    [GetMode] + (Unblock(r) + (Readback(r) + (PostProcess(expandtab) + [Quit, Kill])))
  }

  /** Every step of a `run` that nothing interrupts, in order. */
  function Script(s: Snapshot, command: string, r: Replies, expandtab: bool): seq<Event>
  {
    Setup(s) + (Keystrokes(command) + Finish(r, expandtab))
  }

  /** The awaited step at index `k` of `script` is the one that fails. */
  predicate FailsAt(script: seq<Event>, failAt: Option<nat>, k: nat)
  {
    failAt == Some(k) && k < |script| && script[k].Awaited()
  }

  /** Some awaited step of `script` fails. */
  predicate Failed(script: seq<Event>, failAt: Option<nat>)
  {
    failAt.Some? && FailsAt(script, failAt, failAt.value)
  }

  /** The steps that are issued: all of them, or those up to the failing one. */
  function Sent(script: seq<Event>, failAt: Option<nat>): seq<Event>
  {
    if Failed(script, failAt) then script[..failAt.value + 1] else script
  }

  /** The steps that take effect: the issued ones less the failing one. */
  function Completed(script: seq<Event>, failAt: Option<nat>): seq<Event>
  {
    if Failed(script, failAt) then script[..failAt.value] else script
  }

  /** What one step does to the host editor. */
  function Apply(h: HostState, e: Event): HostState
  {
    match e
    case Replace(t) => h.(text := t)
    case Select(p) => h.(selection := Selection(p, p))
    case _ => h
  }

  /** What a sequence of steps does to the host editor. */
  function Effects(h: HostState, events: seq<Event>): HostState
  {
    if events == [] then h else Apply(Effects(h, events[..|events| - 1]), events[|events| - 1])
  }

  /** The host editor as `run` sees it (the VimState and the active
      TextEditor), together with the log of every step `run` takes. */
  class Editor {
    var text: string
    var selection: Selection
    var cursorPosition: Position
    var cursorStartPosition: Position
    var marks: seq<Mark>
    var trace: seq<Event>

    constructor (text: string, selection: Selection, cursor: Position, cursorStart: Position, marks: seq<Mark>)
      ensures this.text == text && this.selection == selection
      ensures cursorPosition == cursor && cursorStartPosition == cursorStart && this.marks == marks
      ensures trace == []
    {
      this.text := text;
      this.selection := selection;
      cursorPosition := cursor;
      cursorStartPosition := cursorStart;
      this.marks := marks;
      trace := [];
    }

    ghost function Snap(): Snapshot
      reads this
    {
      Snapshot(text, cursorPosition, cursorStartPosition, marks)
    }

    ghost function Host(): HostState
      reads this
    {
      HostState(text, selection)
    }

    /** Partway through `script`: `done` has been issued and has taken effect
        on the state `h0` without a failure, `todo` remains. */
    ghost predicate Progress(prior: seq<Event>, h0: HostState, script: seq<Event>, failAt: Option<nat>,
                             done: seq<Event>, todo: seq<Event>)
      reads this
    {
      && done + todo == script
      && trace == prior + done
      && Host() == Effects(h0, done)
      && !(failAt.Some? && failAt.value < |done| && done[failAt.value].Awaited())
    }

    /** How `run` leaves things: the issued steps logged, the completed ones applied. */
    ghost predicate Finished(prior: seq<Event>, h0: HostState, script: seq<Event>, failAt: Option<nat>)
      reads this
    {
      trace == prior + Sent(script, failAt) && Host() == Effects(h0, Completed(script, failAt))
    }

    /** Takes step `e`, the next one of `script`; `ok` is false when it is the
        awaited step that fails, which then has no effect on the editor. */
    method Step(e: Event, failAt: Option<nat>, base: nat, ghost prior: seq<Event>, ghost h0: HostState,
                ghost script: seq<Event>, ghost done: seq<Event>, ghost rest: seq<Event>)
      returns (ok: bool)
      requires Progress(prior, h0, script, failAt, done, [e] + rest) && |prior| == base
      modifies this`trace, this`text, this`selection
      ensures ok ==> Progress(prior, h0, script, failAt, done + [e], rest)
      ensures !ok ==> Failed(script, failAt) && Finished(prior, h0, script, failAt)
      ensures !e.Awaited() ==> ok
      ensures !e.Replace? ==> text == old(text)
    {
      assert script == (done + [e]) + rest;
      assert script[|done|] == e;
      assert (done + [e])[..|done|] == done;
      trace := trace + [e];
      ok := !(e.Awaited() && failAt == Some(|trace| - 1 - base));
      if ok {
        match e {
          case Replace(t) => text := t;
          case Select(p) => selection := Selection(p, p);
          case _ =>
        }
      } else {
        assert script[..|done| + 1] == done + [e];
        assert script[..|done|] == done;
      }
    }

    /** Pushes the buffer lines, the cursor and the selection bounds, then the marks. */
    method PushState(failAt: Option<nat>, base: nat, ghost prior: seq<Event>, ghost h0: HostState,
                     ghost script: seq<Event>, ghost done: seq<Event>, ghost rest: seq<Event>)
      returns (ok: bool)
      requires Progress(prior, h0, script, failAt, done, Setup(Snap()) + rest) && |prior| == base
      modifies this`trace, this`text, this`selection
      ensures ok ==> Progress(prior, h0, script, failAt, done + Setup(old(Snap())), rest)
      ensures !ok ==> Failed(script, failAt) && Finished(prior, h0, script, failAt)
    {
      ghost var s := Snap();
      ghost var r2 := MarkPositions(marks) + rest;
      ghost var r1 := CursorPositions(s) + r2;
      assert Setup(s) + rest == LoadBuffer(s) + r1;
      ok := PushBuffer(failAt, base, prior, h0, script, done, r1);
      if !ok { return; }
      ok := PushCursor(failAt, base, prior, h0, script, done + LoadBuffer(s), r2);
      if !ok { return; }
      ghost var d := done + LoadBuffer(s) + CursorPositions(s);
      ok := PushMarks(failAt, base, prior, h0, script, d, rest);
      assert d + MarkPositions(marks) == done + Setup(s);
    }

    /** Replaces Neovim's whole buffer with the editor's text split at newlines. */
    method PushBuffer(failAt: Option<nat>, base: nat, ghost prior: seq<Event>, ghost h0: HostState,
                      ghost script: seq<Event>, ghost done: seq<Event>, ghost rest: seq<Event>)
      returns (ok: bool)
      requires Progress(prior, h0, script, failAt, done, LoadBuffer(Snap()) + rest) && |prior| == base
      modifies this`trace, this`text, this`selection
      ensures ok ==> Progress(prior, h0, script, failAt, done + LoadBuffer(old(Snap())), rest)
      ensures ok ==> text == old(text)
      ensures !ok ==> Failed(script, failAt) && Finished(prior, h0, script, failAt)
    {
      var lines := Split(text, '\n');
      assert LoadBuffer(Snap()) + rest == [GetCurrentBuf] + ([SetLines(lines)] + rest);
      ok := Step(GetCurrentBuf, failAt, base, prior, h0, script, done, [SetLines(lines)] + rest);
      if !ok { return; }
      ok := Step(SetLines(lines), failAt, base, prior, h0, script, done + [GetCurrentBuf], rest);
      assert done + [GetCurrentBuf] + [SetLines(lines)] == done + LoadBuffer(old(Snap()));
    }

    /** Sets `.` and `'>` to the cursor and `'<` to the selection start, one line down. */
    method PushCursor(failAt: Option<nat>, base: nat, ghost prior: seq<Event>, ghost h0: HostState,
                      ghost script: seq<Event>, ghost done: seq<Event>, ghost rest: seq<Event>)
      returns (ok: bool)
      requires Progress(prior, h0, script, failAt, done, CursorPositions(Snap()) + rest) && |prior| == base
      modifies this`trace, this`text, this`selection
      ensures ok ==> Progress(prior, h0, script, failAt, done + CursorPositions(old(Snap())), rest)
      ensures ok ==> text == old(text)
      ensures !ok ==> Failed(script, failAt) && Finished(prior, h0, script, failAt)
    {
      var cursor := ToNvim(cursorPosition);
      var start := ToNvim(cursorStartPosition);
      ghost var r2 := [SetPos("'<", start)] + rest;
      ghost var r1 := [SetPos("'>", cursor)] + r2;
      assert CursorPositions(Snap()) + rest == [SetPos(".", cursor)] + r1;
      ok := Step(SetPos(".", cursor), failAt, base, prior, h0, script, done, r1);
      if !ok { return; }
      ok := Step(SetPos("'>", cursor), failAt, base, prior, h0, script, done + [SetPos(".", cursor)], r2);
      if !ok { return; }
      ghost var d := done + [SetPos(".", cursor)] + [SetPos("'>", cursor)];
      ok := Step(SetPos("'<", start), failAt, base, prior, h0, script, d, rest);
      assert d + [SetPos("'<", start)] == done + CursorPositions(old(Snap()));
    }

    /** One `setpos` per mark, in the order of the list. */
    method PushMarks(failAt: Option<nat>, base: nat, ghost prior: seq<Event>, ghost h0: HostState,
                     ghost script: seq<Event>, ghost done: seq<Event>, ghost rest: seq<Event>)
      returns (ok: bool)
      requires Progress(prior, h0, script, failAt, done, MarkPositions(marks) + rest) && |prior| == base
      modifies this`trace, this`text, this`selection
      ensures ok ==> Progress(prior, h0, script, failAt, done + MarkPositions(marks), rest)
      ensures !ok ==> Failed(script, failAt) && Finished(prior, h0, script, failAt)
    {
      ok := true;
      ghost var d := done;
      for i := 0 to |marks|
        invariant Progress(prior, h0, script, failAt, d, MarkPositions(marks[i..]) + rest)
        invariant d + MarkPositions(marks[i..]) == done + MarkPositions(marks)
      {
        var mark := marks[i];
        var e := SetPos(MarkRegister(mark.name), ToNvim(mark.position));
        assert marks[i..][1..] == marks[i + 1..];
        assert MarkPositions(marks[i..]) + rest == [e] + (MarkPositions(marks[i + 1..]) + rest);
        ok := Step(e, failAt, base, prior, h0, script, d, MarkPositions(marks[i + 1..]) + rest);
        if !ok { return; }
        d := d + [e];
      }
      assert marks[|marks|..] == [] && d + [] == d;
    }

    /** Types `":" + command + "\n"` into Neovim, one `input` call per character. */
    method TypeCommand(command: string, failAt: Option<nat>, base: nat, ghost prior: seq<Event>, ghost h0: HostState,
                       ghost script: seq<Event>, ghost done: seq<Event>, ghost rest: seq<Event>)
      returns (ok: bool)
      requires Progress(prior, h0, script, failAt, done, Keystrokes(command) + rest) && |prior| == base
      modifies this`trace, this`text, this`selection
      ensures ok ==> Progress(prior, h0, script, failAt, done + Keystrokes(command), rest)
      ensures !ok ==> Failed(script, failAt) && Finished(prior, h0, script, failAt)
    {
      ok := true;
      var keys := ":" + command + "\n";
      ghost var d := done;
      for i := 0 to |keys|
        invariant Progress(prior, h0, script, failAt, d, InputEach(keys[i..]) + rest)
        invariant d + InputEach(keys[i..]) == done + InputEach(keys)
      {
        var e := Input([keys[i]]);
        assert keys[i..][1..] == keys[i + 1..];
        assert InputEach(keys[i..]) + rest == [e] + (InputEach(keys[i + 1..]) + rest);
        ok := Step(e, failAt, base, prior, h0, script, d, InputEach(keys[i + 1..]) + rest);
        if !ok { return; }
        d := d + [e];
      }
      assert keys[|keys|..] == [] && d + [] == d;
    }

    /** Asks Neovim for its mode and sends one escape if it is blocking. */
    method WaitForMode(replies: Replies, failAt: Option<nat>, base: nat, ghost prior: seq<Event>, ghost h0: HostState,
                   ghost script: seq<Event>, ghost done: seq<Event>, ghost rest: seq<Event>)
      returns (ok: bool)
      requires Progress(prior, h0, script, failAt, done, [GetMode] + (Unblock(replies) + rest)) && |prior| == base
      modifies this`trace, this`text, this`selection
      ensures ok ==> Progress(prior, h0, script, failAt, done + ([GetMode] + Unblock(replies)), rest)
      ensures !ok ==> Failed(script, failAt) && Finished(prior, h0, script, failAt)
    {
      ok := Step(GetMode, failAt, base, prior, h0, script, done, Unblock(replies) + rest);
      if !ok { return; }
      var blocking := replies.blocking;
      if blocking {
        ok := Step(Input(Escape), failAt, base, prior, h0, script, done + [GetMode], rest);
        if !ok { return; }
        assert done + [GetMode] + [Input(Escape)] == done + ([GetMode] + Unblock(replies));
      } else {
        assert done + ([GetMode] + Unblock(replies)) == done + [GetMode];
      }
    }

    /** Replaces the editor's text with Neovim's lines joined by newlines. */
    method ReadText(replies: Replies, failAt: Option<nat>, base: nat, ghost prior: seq<Event>, ghost h0: HostState,
                    ghost script: seq<Event>, ghost done: seq<Event>, ghost rest: seq<Event>)
      returns (ok: bool)
      requires Progress(prior, h0, script, failAt, done, TextReadback(replies) + rest) && |prior| == base
      modifies this`trace, this`text, this`selection
      ensures ok ==> Progress(prior, h0, script, failAt, done + TextReadback(replies), rest)
      ensures !ok ==> Failed(script, failAt) && Finished(prior, h0, script, failAt)
    {
      var newText := Join(replies.lines, '\n');
      assert TextReadback(replies) + rest == [GetLines] + ([Replace(newText)] + rest);
      ok := Step(GetLines, failAt, base, prior, h0, script, done, [Replace(newText)] + rest);
      if !ok { return; }
      ok := Step(Replace(newText), failAt, base, prior, h0, script, done + [GetLines], rest);
      assert done + [GetLines] + [Replace(newText)] == done + TextReadback(replies);
    }

    /** Puts a zero-width selection at Neovim's cursor, one line up. */
    method ReadCursor(replies: Replies, failAt: Option<nat>, base: nat, ghost prior: seq<Event>, ghost h0: HostState,
                      ghost script: seq<Event>, ghost done: seq<Event>, ghost rest: seq<Event>)
      returns (ok: bool)
      requires Progress(prior, h0, script, failAt, done, CursorReadback(replies) + rest) && |prior| == base
      modifies this`trace, this`text, this`selection
      ensures ok ==> Progress(prior, h0, script, failAt, done + CursorReadback(replies), rest)
      ensures !ok ==> Failed(script, failAt) && Finished(prior, h0, script, failAt)
    {
      var position := FromNvim(replies.position);
      assert CursorReadback(replies) + rest == [GetPos(".")] + ([Select(position)] + rest);
      ok := Step(GetPos("."), failAt, base, prior, h0, script, done, [Select(position)] + rest);
      if !ok { return; }
      ok := Step(Select(position), failAt, base, prior, h0, script, done + [GetPos(".")], rest);
      assert done + [GetPos(".")] + [Select(position)] == done + CursorReadback(replies);
    }

    /** Re-indents if configured to, then quits Neovim and kills its process. */
    method TearDown(expandtab: bool, failAt: Option<nat>, base: nat, ghost prior: seq<Event>, ghost h0: HostState,
                    ghost script: seq<Event>, ghost done: seq<Event>)
      returns (ok: bool)
      requires Progress(prior, h0, script, failAt, done, PostProcess(expandtab) + [Quit, Kill]) && |prior| == base
      modifies this`trace, this`text, this`selection
      ensures ok == !Failed(script, failAt)
      ensures Finished(prior, h0, script, failAt)
    {
      ghost var d := done;
      if expandtab {
        ok := Step(IndentationToSpaces, failAt, base, prior, h0, script, d, [Quit, Kill]);
        if !ok { return; }
        d := d + [IndentationToSpaces];
      } else {
        assert PostProcess(expandtab) + [Quit, Kill] == [Quit, Kill];
      }
      ok := Step(Quit, failAt, base, prior, h0, script, d, [Kill]);
      d := d + [Quit];
      ok := Step(Kill, failAt, base, prior, h0, script, d, []);
      d := d + [Kill];
      assert d + [] == d;
    }

    /** Everything after the keystrokes: unblock, read back, tear down. */
    method ReadBack(replies: Replies, expandtab: bool, failAt: Option<nat>, base: nat, ghost prior: seq<Event>,
                    ghost h0: HostState, ghost script: seq<Event>, ghost done: seq<Event>)
      returns (ok: bool)
      requires Progress(prior, h0, script, failAt, done, Finish(replies, expandtab)) && |prior| == base
      modifies this`trace, this`text, this`selection
      ensures ok == !Failed(script, failAt)
      ensures Finished(prior, h0, script, failAt)
    {
      ghost var tail := PostProcess(expandtab) + [Quit, Kill];
      ok := WaitForMode(replies, failAt, base, prior, h0, script, done, Readback(replies) + tail);
      if !ok { return; }
      ghost var d := done + ([GetMode] + Unblock(replies));
      assert Readback(replies) + tail == TextReadback(replies) + (CursorReadback(replies) + tail);
      ok := ReadText(replies, failAt, base, prior, h0, script, d, CursorReadback(replies) + tail);
      if !ok { return; }
      ok := ReadCursor(replies, failAt, base, prior, h0, script, d + TextReadback(replies), tail);
      if !ok { return; }
      assert d + TextReadback(replies) + CursorReadback(replies) == d + Readback(replies);
      ok := TearDown(expandtab, failAt, base, prior, h0, script, d + Readback(replies));
    }

    /** `run(vimState, command)`: `replies` are Neovim's answers, `failAt` the
        index (counted from this call's first step) of the awaited step that
        rejects, if any; `ok` is false when `run` rejects. */
    method Run(command: string, replies: Replies, failAt: Option<nat>, expandtab: bool) returns (ok: bool)
      modifies this`trace, this`text, this`selection
      ensures ok == !Failed(Script(old(Snap()), command, replies, expandtab), failAt)
      ensures Finished(old(trace), old(Host()), Script(old(Snap()), command, replies, expandtab), failAt)
    {
      ghost var prior := trace;
      ghost var h0 := Host();
      ghost var setup := Setup(Snap());
      ghost var script := Script(Snap(), command, replies, expandtab);
      var base := |trace|;
      assert Effects(h0, []) == h0;
      assert [] + script == script;

      ok := PushState(failAt, base, prior, h0, script, [], Keystrokes(command) + Finish(replies, expandtab));
      if !ok { return; }
      assert [] + setup == setup;
      ok := TypeCommand(command, failAt, base, prior, h0, script, setup, Finish(replies, expandtab));
      if !ok { return; }
      ok := ReadBack(replies, expandtab, failAt, base, prior, h0, script, setup + Keystrokes(command));
    }
  }
}
