/** What the call script of `run` promises: the exact keystrokes, the shifted
    positions, the escape sent only when Neovim blocks and before the
    readback, teardown only when nothing failed, and the editor state after
    a run. */
module ScriptProperties {
  import opened Wrappers
  import opened Text
  import opened Session

  /** The events of `events` that satisfy `keep`, in order. */
  function Filter(events: seq<Event>, keep: Event -> bool): seq<Event>
  {
    if events == [] then [] else (if keep(events[0]) then [events[0]] else []) + Filter(events[1..], keep)
  }

  predicate IsInput(e: Event) { e.Input? }

  predicate IsSetPos(e: Event) { e.SetPos? }

  predicate IsEscape(e: Event) { e == Input(Escape) }

  /** Steps that push editor state into Neovim. */
  predicate Pushing(e: Event) { e.GetCurrentBuf? || e.SetLines? || e.SetPos? }

  /** Steps that leave the host editor alone. */
  predicate Inert(e: Event) { !e.Replace? && !e.Select? }

  lemma {:induction false} FilterAppend(a: seq<Event>, b: seq<Event>, keep: Event -> bool)
    ensures Filter(a + b, keep) == Filter(a, keep) + Filter(b, keep)
  {
    if a != [] {
      assert (a + b)[0] == a[0] && (a + b)[1..] == a[1..] + b;
      FilterAppend(a[1..], b, keep);
    } else {
      assert a + b == b;
    }
  }

  lemma {:induction false} FilterNone(a: seq<Event>, keep: Event -> bool)
    requires forall i :: 0 <= i < |a| ==> !keep(a[i])
    ensures Filter(a, keep) == []
  {
    if a != [] {
      FilterNone(a[1..], keep);
    }
  }

  lemma {:induction false} FilterAll(a: seq<Event>, keep: Event -> bool)
    requires forall i :: 0 <= i < |a| ==> keep(a[i])
    ensures Filter(a, keep) == a
  {
    if a != [] {
      FilterAll(a[1..], keep);
      assert a == [a[0]] + a[1..];
    }
  }

  /** The setup only loads the buffer and sets positions. */
  lemma SetupPushes(s: Snapshot)
    ensures forall i :: 0 <= i < |Setup(s)| ==> Pushing(Setup(s)[i])
  {
    var marks := MarkPositions(s.marks);
    if s.marks != [] {
      MarkPositionsAt(s.marks, 0);
    }
    forall i | 0 <= i < |marks| ensures marks[i].SetPos? {
      MarkPositionsAt(s.marks, i);
    }
  }

  /** The keystrokes are `input` calls of one character each. */
  lemma KeystrokesAreSingleKeys(command: string)
    ensures |Keystrokes(command)| == |command| + 2
    ensures forall i :: 0 <= i < |Keystrokes(command)| ==>
      Keystrokes(command)[i].Input? && |Keystrokes(command)[i].keys| == 1
  {
    var keys := ":" + command + "\n";
    InputEachAt(keys, 0);
    forall i | 0 <= i < |keys| ensures InputEach(keys)[i] == Input([keys[i]]) {
      InputEachAt(keys, i);
    }
  }

  /** Setup, keystrokes and `getMode`. */
  function Typed(s: Snapshot, command: string): seq<Event>
  {
    Setup(s) + Keystrokes(command) + [GetMode]
  }

  /** Everything before `getLines`: the typed part and the escape when Neovim blocks. */
  function Prelude(s: Snapshot, command: string, r: Replies): seq<Event>
  {
    Typed(s, command) + Unblock(r)
  }

  /** The script is the prelude, then `getLines`, then the rest. */
  lemma ScriptLayout(s: Snapshot, command: string, r: Replies, expandtab: bool)
    ensures Script(s, command, r, expandtab)
         == Prelude(s, command, r) + [GetLines, Replace(Join(r.lines, '\n'))] + CursorReadback(r)
            + PostProcess(expandtab) + [Quit, Kill]
  {
  }

  /** Before the escape nothing edits the host, reads back, quits, kills or sends an escape. */
  lemma TypedIsQuiet(s: Snapshot, command: string)
    ensures forall i :: 0 <= i < |Typed(s, command)| ==>
      var e := Typed(s, command)[i];
      Inert(e) && e != GetLines && !e.Quit? && !e.Kill? && e != Input(Escape)
  {
    SetupPushes(s);
    KeystrokesAreSingleKeys(command);
    var p := Typed(s, command);
    var n1, n2 := |Setup(s)|, |Keystrokes(command)|;
    forall i | 0 <= i < |p|
      ensures Inert(p[i]) && p[i] != GetLines && !p[i].Quit? && !p[i].Kill? && p[i] != Input(Escape)
    {
      if i < n1 {
        assert p[i] == Setup(s)[i];
      } else if i < n1 + n2 {
        assert p[i] == Keystrokes(command)[i - n1];
      }
    }
  }

  /** Nothing before `getLines` edits the host, reads back, quits or kills. */
  lemma PreludeIsQuiet(s: Snapshot, command: string, r: Replies)
    ensures forall i :: 0 <= i < |Prelude(s, command, r)| ==>
      var e := Prelude(s, command, r)[i];
      Inert(e) && e != GetLines && !e.Quit? && !e.Kill?
  {
    TypedIsQuiet(s, command);
    var t := Typed(s, command);
    forall i | 0 <= i < |Prelude(s, command, r)|
      ensures var e := Prelude(s, command, r)[i]; Inert(e) && e != GetLines && !e.Quit? && !e.Kill?
    {
      if i < |t| {
        assert Prelude(s, command, r)[i] == t[i];
      }
    }
  }

  /** A filter of the script is the filters of its three parts. */
  lemma ScriptFilter(s: Snapshot, command: string, r: Replies, expandtab: bool, keep: Event -> bool)
    ensures Filter(Script(s, command, r, expandtab), keep)
         == Filter(Setup(s), keep) + Filter(Keystrokes(command), keep) + Filter(Finish(r, expandtab), keep)
  {
    FilterAppend(Setup(s), Keystrokes(command) + Finish(r, expandtab), keep);
    FilterAppend(Keystrokes(command), Finish(r, expandtab), keep);
  }

  /** The setup types nothing and sets the cursor, the selection bounds and the marks. */
  lemma SetupFilters(s: Snapshot)
    ensures Filter(Setup(s), IsInput) == [] && Filter(Setup(s), IsEscape) == []
    ensures Filter(Setup(s), IsSetPos) == CursorPositions(s) + MarkPositions(s.marks)
  {
    SetupPushes(s);
    FilterNone(Setup(s), IsInput);
    FilterNone(Setup(s), IsEscape);
    var marks := MarkPositions(s.marks);
    forall i | 0 <= i < |marks| ensures marks[i].SetPos? {
      MarkPositionsAt(s.marks, i);
    }
    FilterAppend(LoadBuffer(s), CursorPositions(s) + marks, IsSetPos);
    FilterAppend(CursorPositions(s), marks, IsSetPos);
    FilterNone(LoadBuffer(s), IsSetPos);
    FilterAll(CursorPositions(s), IsSetPos);
    FilterAll(marks, IsSetPos);
  }

  /** The keystrokes are all typing, never an escape or a `setpos`. */
  lemma KeystrokeFilters(command: string)
    ensures Filter(Keystrokes(command), IsInput) == Keystrokes(command)
    ensures Filter(Keystrokes(command), IsEscape) == [] && Filter(Keystrokes(command), IsSetPos) == []
  {
    KeystrokesAreSingleKeys(command);
    FilterAll(Keystrokes(command), IsInput);
    FilterNone(Keystrokes(command), IsEscape);
    FilterNone(Keystrokes(command), IsSetPos);
  }

  /** After the keystrokes the only typing is the escape of a blocking Neovim. */
  lemma FinishFilters(r: Replies, expandtab: bool)
    ensures Filter(Finish(r, expandtab), IsInput) == Unblock(r)
    ensures Filter(Finish(r, expandtab), IsEscape) == Unblock(r)
    ensures Filter(Finish(r, expandtab), IsSetPos) == []
  {
    var rest := Readback(r) + (PostProcess(expandtab) + [Quit, Kill]);
    FilterAppend([GetMode], Unblock(r) + rest, IsInput);
    FilterAppend(Unblock(r), rest, IsInput);
    FilterAppend([GetMode], Unblock(r) + rest, IsEscape);
    FilterAppend(Unblock(r), rest, IsEscape);
    FilterAll(Unblock(r), IsInput);
    FilterAll(Unblock(r), IsEscape);
    FilterNone([GetMode], IsInput);
    FilterNone([GetMode], IsEscape);
    FilterNone(rest, IsInput);
    FilterNone(rest, IsEscape);
    FilterNone(Finish(r, expandtab), IsSetPos);
  }

  /** The `input` calls of a run are exactly `:`, the command's characters
      and a newline, one character per call, then a single escape when
      Neovim reports it is blocking. */
  lemma InputsOfScript(s: Snapshot, command: string, r: Replies, expandtab: bool)
    ensures Filter(Script(s, command, r, expandtab), IsInput) == Keystrokes(command) + Unblock(r)
  {
    ScriptFilter(s, command, r, expandtab, IsInput);
    SetupFilters(s);
    KeystrokeFilters(command);
    FinishFilters(r, expandtab);
  }

  /** The cursor goes to `.` and `'>` and the selection start to `'<`, each
      one line down with the column unchanged, then every mark to its own
      register in the order of the list; no other `setpos` is made. */
  lemma PositionsOfScript(s: Snapshot, command: string, r: Replies, expandtab: bool)
    ensures Filter(Script(s, command, r, expandtab), IsSetPos)
         == [SetPos(".", NvimPos(s.cursor.line + 1, s.cursor.character)),
             SetPos("'>", NvimPos(s.cursor.line + 1, s.cursor.character)),
             SetPos("'<", NvimPos(s.cursorStart.line + 1, s.cursorStart.character))]
            + MarkPositions(s.marks)
  {
    ScriptFilter(s, command, r, expandtab, IsSetPos);
    SetupFilters(s);
    KeystrokeFilters(command);
    FinishFilters(r, expandtab);
  }

  /** Neovim gets an escape exactly once when it reports it is blocking,
      never otherwise. */
  lemma EscapeOnlyWhenBlocking(s: Snapshot, command: string, r: Replies, expandtab: bool)
    ensures Filter(Script(s, command, r, expandtab), IsEscape) == Unblock(r)
    ensures |Filter(Script(s, command, r, expandtab), IsEscape)| == if r.blocking then 1 else 0
  {
    ScriptFilter(s, command, r, expandtab, IsEscape);
    SetupFilters(s);
    KeystrokeFilters(command);
    FinishFilters(r, expandtab);
  }

  /** The escape, when sent, comes before the buffer is read back. */
  lemma EscapeBeforeReadback(s: Snapshot, command: string, r: Replies, expandtab: bool)
    ensures var sc := Script(s, command, r, expandtab);
      forall i, j :: 0 <= i < |sc| && 0 <= j < |sc| && sc[i] == Input(Escape) && sc[j] == GetLines ==> i < j
  {
    ReadbackStart(s, command, r, expandtab);
  }

  /** `getLines` is made once, right after the prelude, and no escape follows it. */
  lemma ReadbackStart(s: Snapshot, command: string, r: Replies, expandtab: bool)
    ensures var sc := Script(s, command, r, expandtab);
      var n := |Prelude(s, command, r)|;
      && n < |sc| && sc[n] == GetLines
      && (forall k :: 0 <= k < |sc| && k != n ==> sc[k] != GetLines)
      && (forall k :: n < k < |sc| ==> sc[k] != Input(Escape))
  {
    var sc := Script(s, command, r, expandtab);
    var p := Prelude(s, command, r);
    var tail := [Replace(Join(r.lines, '\n'))] + CursorReadback(r) + PostProcess(expandtab) + [Quit, Kill];
    ScriptLayout(s, command, r, expandtab);
    assert sc == p + [GetLines] + tail;
    PreludeIsQuiet(s, command, r);
    forall k | 0 <= k < |p| ensures sc[k] != GetLines {
      assert sc[k] == p[k];
    }
    forall k | |p| < k < |sc| ensures sc[k] != GetLines && sc[k] != Input(Escape) {
      assert sc[k] == tail[k - |p| - 1];
    }
  }

  /** `quit` and `kill` are the last two steps, made only when no earlier
      step failed: a failure leaves the Neovim process running. */
  lemma TeardownOnlyOnSuccess(s: Snapshot, command: string, r: Replies, expandtab: bool, failAt: Option<nat>)
    ensures var sc := Script(s, command, r, expandtab);
      && (Quit in Sent(sc, failAt) <==> !Failed(sc, failAt))
      && (Kill in Sent(sc, failAt) <==> !Failed(sc, failAt))
      && (!Failed(sc, failAt) ==> Sent(sc, failAt)[|Sent(sc, failAt)| - 2..] == [Quit, Kill])
  {
    var sc := Script(s, command, r, expandtab);
    var p := Prelude(s, command, r) + [GetLines, Replace(Join(r.lines, '\n'))] + CursorReadback(r)
             + PostProcess(expandtab);
    ScriptLayout(s, command, r, expandtab);
    assert sc == p + [Quit, Kill];
    PreludeIsQuiet(s, command, r);
    assert forall i :: 0 <= i < |p| ==> !p[i].Quit? && !p[i].Kill? by {
      forall i | 0 <= i < |p| ensures !p[i].Quit? && !p[i].Kill? {
        if i < |Prelude(s, command, r)| {
          assert p[i] == Prelude(s, command, r)[i];
        }
      }
    }
    if Failed(sc, failAt) {
      var k := failAt.value;
      assert k < |p|;
      assert Sent(sc, failAt) == p[..k + 1];
      assert Quit !in p && Kill !in p;
    }
  }

  lemma {:induction false} EffectsAppend(h: HostState, a: seq<Event>, b: seq<Event>)
    ensures Effects(h, a + b) == Effects(Effects(h, a), b)
  {
    if b == [] {
      assert a + b == a;
    } else {
      var b' := b[..|b| - 1];
      assert (a + b)[..|a + b| - 1] == a + b';
      EffectsAppend(h, a, b');
    }
  }

  lemma {:induction false} EffectsInert(h: HostState, a: seq<Event>)
    requires forall i :: 0 <= i < |a| ==> Inert(a[i])
    ensures Effects(h, a) == h
  {
    if a != [] {
      EffectsInert(h, a[..|a| - 1]);
    }
  }

  /** After a run that nothing interrupted, the editor holds Neovim's lines
      joined with newlines and a zero-width selection at Neovim's cursor,
      one line up, column unchanged. */
  lemma {:induction false} HostAfterRun(h: HostState, s: Snapshot, command: string, r: Replies, expandtab: bool,
                                        failAt: Option<nat>)
    requires !Failed(Script(s, command, r, expandtab), failAt)
    ensures var p := Position(r.position.row - 1, r.position.col);
      Effects(h, Completed(Script(s, command, r, expandtab), failAt))
      == HostState(Join(r.lines, '\n'), Selection(p, p))
  {
    var p := Prelude(s, command, r);
    var sc := Script(s, command, r, expandtab);
    ScriptLayout(s, command, r, expandtab);
    PreludeIsQuiet(s, command, r);
    var text := Join(r.lines, '\n');
    var position := FromNvim(r.position);
    var read := [GetLines, Replace(text), GetPos("."), Select(position)];
    var tail := PostProcess(expandtab) + [Quit, Kill];
    assert sc == p + read + tail;
    EffectsAppend(h, p + read, tail);
    EffectsAppend(h, p, read);
    EffectsInert(h, p);
    assert [GetLines][..0] == [];
    assert Effects(h, [GetLines]) == h;
    assert [GetLines, Replace(text)][..1] == [GetLines];
    assert Effects(h, [GetLines, Replace(text)]) == h.(text := text);
    assert [GetLines, Replace(text), GetPos(".")][..2] == [GetLines, Replace(text)];
    assert Effects(h, [GetLines, Replace(text), GetPos(".")]) == h.(text := text);
    assert read[..3] == [GetLines, Replace(text), GetPos(".")];
    assert Effects(h, read) == HostState(text, Selection(position, position));
    EffectsInert(Effects(h, p + read), tail);
  }

  /** A buffer that Neovim leaves untouched comes back as the very same text. */
  lemma UntouchedBufferRoundTrip(h: HostState, s: Snapshot, command: string, r: Replies, expandtab: bool,
                                 failAt: Option<nat>)
    requires !Failed(Script(s, command, r, expandtab), failAt)
    requires r.lines == Split(s.text, '\n')
    ensures Effects(h, Completed(Script(s, command, r, expandtab), failAt)).text == s.text
  {
    HostAfterRun(h, s, command, r, expandtab, failAt);
    JoinSplit(s.text, '\n');
  }

  /** The editor ends with exactly Neovim's lines, in order and verbatim. */
  lemma ReadbackLinesVerbatim(h: HostState, s: Snapshot, command: string, r: Replies, expandtab: bool,
                              failAt: Option<nat>)
    requires !Failed(Script(s, command, r, expandtab), failAt)
    requires |r.lines| >= 1 && forall i :: 0 <= i < |r.lines| ==> '\n' !in r.lines[i]
    ensures Split(Effects(h, Completed(Script(s, command, r, expandtab), failAt)).text, '\n') == r.lines
  {
    HostAfterRun(h, s, command, r, expandtab, failAt);
    SplitJoin(r.lines, '\n');
  }

  /** A run that fails before the editor's text is replaced leaves the
      editor's text and selection as they were. */
  lemma FailureBeforeReplaceLeavesHost(h: HostState, s: Snapshot, command: string, r: Replies, expandtab: bool,
                                       failAt: Option<nat>)
    requires Replace(Join(r.lines, '\n')) !in Completed(Script(s, command, r, expandtab), failAt)
    ensures Effects(h, Completed(Script(s, command, r, expandtab), failAt)) == h
  {
    var sc := Script(s, command, r, expandtab);
    var p := Prelude(s, command, r) + [GetLines];
    ScriptLayout(s, command, r, expandtab);
    PreludeIsQuiet(s, command, r);
    var replace := Replace(Join(r.lines, '\n'));
    assert sc == p + [replace] + CursorReadback(r) + PostProcess(expandtab) + [Quit, Kill];
    var done := Completed(sc, failAt);
    assert done == sc || done == sc[..failAt.value];
    assert sc[|p|] == replace;
    assert |done| <= |p|;
    forall i | 0 <= i < |done| ensures Inert(done[i]) {
      assert done[i] == sc[i];
      if i < |Prelude(s, command, r)| {
        assert sc[i] == Prelude(s, command, r)[i];
      }
    }
    EffectsInert(h, done);
  }
}
