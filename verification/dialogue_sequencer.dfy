/**
  The dialogue sequencer of the dialogue manager: playing one line (`PlayLine`)
  and walking the chain of lines through `nextLine` until the `END` sentinel
  (`PlayDialogueSequence`).

  The asynchronous code is modelled sequentially. Every `await Task.Delay(..., token)`
  is a suspension point; a cancellation is an input naming the suspension at
  which `CancelDialogue` is called, and a cancelled token makes the next
  suspension throw. The audio engine's end-of-event callback, which clears the
  line-active flag, arrives while the sequencer waits for that flag.
 */
module DialogueSequencer {
  import opened Outcomes
  import opened DialogueLines

  /** The reserved next-line id that ends a sequence; it is never looked up. */
  const End: string := "END"

  /** The game objects a dialogue audio event can be posted on. */
  datatype Target = Player | Iris | SecurityDroid1 | SecurityDroid2

  /** Which speaker's voice comes from which object. */
  const SpeakerTable: map<string, Target> := map[
    "Seru" := Player, "Unknown" := Player, "The Core" := Player,
    "Iris" := Iris,
    "Security Droid 1" := SecurityDroid1,
    "Security Droid 2" := SecurityDroid2]

  /** The speaker dispatch: the chain of name comparisons in `PlayLine`. */
  function SpeakerTarget(speaker: string): (t: Option<Target>)
    ensures t.Some? <==> speaker in SpeakerTable
    ensures t.Some? ==> t.value == SpeakerTable[speaker]
  {
    if speaker == "Seru" || speaker == "Unknown" || speaker == "The Core" then Some(Player)
    else if speaker == "Iris" then Some(Iris)
    else if speaker == "Security Droid 1" then Some(SecurityDroid1)
    else if speaker == "Security Droid 2" then Some(SecurityDroid2)
    else None
  }

  /** The subtitle configuration: the flag, the text-box object, and its text component. */
  datatype Subtitles = Subtitles(enabled: bool, textBox: bool, textComponent: bool)

  /** Subtitles are shown (and the line marked active) only with all three present. */
  predicate ShowsSubtitles(ui: Subtitles) {
    ui.enabled && ui.textBox && ui.textComponent
  }

  /**
    The line-active flag together with what will clear it: `Clear` is false;
    `AwaitingCallback` is true with an audio event posted whose end-of-event
    callback will clear it; `Orphaned` is true with nothing posted to clear it.
   */
  datatype LineFlag = Clear | AwaitingCallback | Orphaned

  /** The suspension points of one iteration of the walk. */
  datatype Point =
    | EntryWait       // waiting for a previous line's flag to clear
    | AudioWait       // waiting for this line's audio to end
    | PostDelayWait   // the post-delay
    | InterLineDelay  // the fixed pause after each line

  /** Where `CancelDialogue` is called, if at all. */
  datatype Cancel =
    | NoCancel
    | DuringPrologue                   // while a new sequence waits for the old line
    | During(line: nat, point: Point)  // while suspended at `point` of the `line`-th line (from 0)

  /** What the sequencer does to the outside world. */
  datatype Event =
    | ShowSubtitle(text: string)
    | SetDialogueState(lineId: string)
    | PostAudio(target: Target)
    | ClearSubtitle
    | PostDelay(ms: int)

  /** How a call of `PlayLine` ends. */
  datatype LineResult =
    | Finished(next: string, events: seq<Event>)
    | LineCancelled(flag: LineFlag, events: seq<Event>)
    | LineHung(events: seq<Event>)
    | KeyNotFound

  function ResultEvents(r: LineResult): seq<Event> {
    if r.KeyNotFound? then [] else r.events
  }

  /** The subtitle shown for a line. */
  function SubtitleText(line: DialogueLine): string {
    line.speaker + ": " + line.text
  }

  /** The post-delay in whole milliseconds, truncated as the integer cast does. */
  function DelayMillis(seconds: real): int
    requires seconds > 0.0
  {
    (seconds * 1000.0).Floor
  }

  /** A suspension observes cancellation when the token is already cancelled or the cancel lands there. */
  predicate Observes(tokenCancelled: bool, at: Option<Point>, p: Point) {
    tokenCancelled || at == Some(p)
  }

  /** The line ids the events looked up, in order. */
  function StateIds(events: seq<Event>): seq<string> {
    if |events| == 0 then []
    else (if events[0].SetDialogueState? then [events[0].lineId] else []) + StateIds(events[1..])
  }

  /** The ids of a line's events, which set the state for `id` once, followed by further events. */
  lemma StateIdsPrepend(events: seq<Event>, first: seq<Event>, rest: seq<Event>,
                        ids: seq<string>, id: string, restIds: seq<string>)
    requires events == first + rest && StateIds(first) == [id] && StateIds(rest) == restIds
    requires ids == [id] + restIds
    ensures StateIds(events) == ids
  {
    StateIdsAppend(first, rest);
  }

  lemma {:induction false} StateIdsAppend(a: seq<Event>, b: seq<Event>)
    ensures StateIds(a + b) == StateIds(a) + StateIds(b)
    decreases |a|
  {
    if |a| == 0 {
      assert a + b == b;
    } else {
      assert (a + b)[1..] == a[1..] + b;
      StateIdsAppend(a[1..], b);
    }
  }

  /** The events of a looked-up line up to and including the audio post. */
  function OpeningEvents(line: DialogueLine, lineId: string, ui: Subtitles): (e: seq<Event>)
    ensures StateIds(e) == [lineId]
    ensures ShowSubtitle(SubtitleText(line)) in e <==> ShowsSubtitles(ui)
  {
    var a := if ShowsSubtitles(ui) then [ShowSubtitle(SubtitleText(line))] else [];
    var c: seq<Event> := match SpeakerTarget(line.speaker) case Some(t) => [PostAudio(t)] case None => [];
    StateIdsAppend(a + [SetDialogueState(lineId)], c);
    StateIdsAppend(a, [SetDialogueState(lineId)]);
    assert StateIds(a) == [];
    assert StateIds(c) == [];
    a + [SetDialogueState(lineId)] + c
  }

  /**
    The opening shows no subtitle but the line's own, and only with subtitles on;
    posts audio only to the speaker's object, and does so exactly when the speaker
    has one; and neither clears the subtitle nor waits.
   */
  lemma OpeningEventsContents(line: DialogueLine, lineId: string, ui: Subtitles)
    ensures var e := OpeningEvents(line, lineId, ui);
            && (forall ev :: ev in e && ev.ShowSubtitle? ==> ShowsSubtitles(ui) && ev.text == SubtitleText(line))
            && (forall ev :: ev in e && ev.PostAudio? ==>
                  line.speaker in SpeakerTable && SpeakerTable[line.speaker] == ev.target)
            && ((exists ev :: ev in e && ev.PostAudio?) <==> line.speaker in SpeakerTable)
            && (forall ev :: ev in e ==> !ev.PostDelay? && !ev.ClearSubtitle?)
  {
    var e := OpeningEvents(line, lineId, ui);
    if line.speaker in SpeakerTable {
      assert e[|e| - 1] == PostAudio(SpeakerTable[line.speaker]);
    }
  }

  /**
    One call of `PlayLine`: wait for the line-active flag, look the line up, show
    the subtitle, set the dialogue state, post the audio on the speaker's object,
    wait for the audio to end, clear the subtitle, wait out the post-delay and
    return the next line's id. `flag` is the line-active flag on entry;
    `tokenCancelled` says the token was cancelled before the call; `at` is the
    suspension point of this line at which a cancel lands, if any.
   */
  function PlayLine(lines: map<string, DialogueLine>, ui: Subtitles, flag: LineFlag, lineId: string,
                    tokenCancelled: bool, at: Option<Point>): (r: LineResult)
    ensures r.KeyNotFound? ==> lineId !in lines
    ensures flag == Clear && lineId !in lines ==> r.KeyNotFound?
    ensures r.Finished? ==> lineId in lines && r.next == lines[lineId].nextLine
    ensures ResultEvents(r) != [] ==> lineId in lines
    ensures r.Finished? ==> r.events != []
    ensures tokenCancelled && flag != Clear ==> r == LineCancelled(flag, [])
    ensures tokenCancelled ==> !r.LineHung?
  {
    if flag != Clear && Observes(tokenCancelled, at, EntryWait) then LineCancelled(flag, [])
    else if flag == Orphaned then LineHung([])
    else if lineId !in lines then KeyNotFound
    else
      var line := lines[lineId];
      var opening := OpeningEvents(line, lineId, ui);
      var shown := if ShowsSubtitles(ui) then Orphaned else Clear;
      var posted := if SpeakerTarget(line.speaker).Some? && shown == Orphaned then AwaitingCallback else shown;
      if ui.textBox && posted != Clear && Observes(tokenCancelled, at, AudioWait) then LineCancelled(posted, opening)
      else if ui.textBox && posted == Orphaned then LineHung(opening)
      else
        var cleared := opening + ClearEvents(ui);
        if line.postDelay > 0.0 then
          var delayed := cleared + [PostDelay(DelayMillis(line.postDelay))];
          // a zero-millisecond delay completes at once, so a cancel can land only on a longer one
          if tokenCancelled || (at == Some(PostDelayWait) && DelayMillis(line.postDelay) > 0)
          then LineCancelled(Clear, delayed)
          else Finished(line.nextLine, delayed)
        else Finished(line.nextLine, cleared)
  }

  /** The subtitle clear that follows the audio, when there is a subtitle component to clear. */
  function ClearEvents(ui: Subtitles): (e: seq<Event>)
    ensures StateIds(e) == []
  {
    if ui.textBox && ui.textComponent then [ClearSubtitle] else []
  }

  /** The post-delay wait, when the line has one. */
  function DelayEvents(line: DialogueLine): (e: seq<Event>)
    ensures StateIds(e) == []
  {
    if line.postDelay > 0.0 then [PostDelay(DelayMillis(line.postDelay))] else []
  }

  /** A call's events are empty or the line's opening followed by a prefix of the subtitle clear and the post-delay. */
  lemma PlayLineShape(lines: map<string, DialogueLine>, ui: Subtitles, flag: LineFlag, lineId: string,
                      tokenCancelled: bool, at: Option<Point>)
    ensures var r := PlayLine(lines, ui, flag, lineId, tokenCancelled, at);
            ResultEvents(r) != [] ==>
              && lineId in lines
              && var opening := OpeningEvents(lines[lineId], lineId, ui);
                 var full := opening + ClearEvents(ui) + DelayEvents(lines[lineId]);
                 && (ResultEvents(r) == opening || ResultEvents(r) == opening + ClearEvents(ui) || ResultEvents(r) == full)
                 && (r.Finished? ==> r.events == full)
  {
    var r := PlayLine(lines, ui, flag, lineId, tokenCancelled, at);
    if ResultEvents(r) != [] {
      var line := lines[lineId];
      var cleared := OpeningEvents(line, lineId, ui) + ClearEvents(ui);
      if line.postDelay <= 0.0 {
        assert cleared + DelayEvents(line) == cleared;
      }
    }
  }

  /** A call sets the dialogue state exactly once, for its own id, when it looks its line up, and never otherwise. */
  lemma PlayLineStateIds(lines: map<string, DialogueLine>, ui: Subtitles, flag: LineFlag, lineId: string,
                         tokenCancelled: bool, at: Option<Point>)
    ensures var r := PlayLine(lines, ui, flag, lineId, tokenCancelled, at);
            StateIds(ResultEvents(r)) == Looked(lineId, ResultEvents(r))
  {
    var r := PlayLine(lines, ui, flag, lineId, tokenCancelled, at);
    PlayLineShape(lines, ui, flag, lineId, tokenCancelled, at);
    var events := ResultEvents(r);
    if events != [] {
      var line := lines[lineId];
      var opening := OpeningEvents(line, lineId, ui);
      var cleared := opening + ClearEvents(ui);
      StateIdsAppend(opening, ClearEvents(ui));
      StateIdsAppend(cleared, DelayEvents(line));
      assert StateIds(opening) == StateIds(cleared) == StateIds(cleared + DelayEvents(line)) == [lineId];
      assert events == opening || events == cleared || events == cleared + DelayEvents(line);
    }
  }

  /** The chain from `id`: the ids along `nextLine`, up to `END` or a dangling id, at most `fuel` of them. */
  function ChainIds(lines: map<string, DialogueLine>, id: string, fuel: nat): seq<string>
    decreases fuel
  {
    if id == End || id !in lines || fuel == 0 then []
    else [id] + ChainIds(lines, lines[id].nextLine, fuel - 1)
  }

  /** The id reached from `id` after `n` steps along the chain, stopping at `END` or a dangling id. */
  function Follow(lines: map<string, DialogueLine>, id: string, n: nat): string
    decreases n
  {
    if id == End || id !in lines || n == 0 then id
    else Follow(lines, lines[id].nextLine, n - 1)
  }

  /** How a sequence ends. */
  datatype Outcome =
    | Completed                  // reached `END`
    | Cancelled                  // a cancel was caught; the walk stopped
    | MissingLine(id: string)    // looking `id` up threw; the exception escapes
    | Hung                       // waiting forever on the line-active flag
    | Unfinished(next: string)   // still running after the lines the fuel allows
    | PrologueCancelled          // a cancel while waiting to supersede; the exception escapes

  /**
    A sequence's outcome, its events, the ids of the lines it looked up, the two
    flags it leaves behind, and whether the token it leaves in place is cancelled.
   */
  datatype Run = Run(outcome: Outcome, events: seq<Event>, ids: seq<string>, flag: LineFlag, sequenceActive: bool,
                     tokenCancelled: bool)

  /** The id of a call that got as far as looking its line up: exactly such calls have events. */
  function Looked(id: string, events: seq<Event>): seq<string> {
    if events == [] then [] else [id]
  }

  function CancelAt(cancel: Cancel, k: nat): Option<Point> {
    if cancel.During? && cancel.line == k then Some(cancel.point) else None
  }

  /**
    The loop of `PlayDialogueSequence` from line number `k` on, with `next` the
    id to play and at most `fuel` more lines. Each iteration plays a line and
    pauses; the token is renewed after every iteration, so a cancelled token
    outlives the loop only when no iteration ran.
   */
  function Walk(lines: map<string, DialogueLine>, ui: Subtitles, flag: LineFlag, next: string,
                tokenCancelled: bool, cancel: Cancel, k: nat, fuel: nat): (r: Run)
    ensures !r.outcome.PrologueCancelled?
    ensures r.sequenceActive <==> r.outcome.MissingLine? || r.outcome.Hung? || r.outcome.Unfinished?
    ensures r.outcome.MissingLine? ==> r.outcome.id !in lines && r.outcome.id != End && r.flag == Clear
    ensures r.outcome.Unfinished? ==> r.outcome.next != End
    ensures r.tokenCancelled <==> tokenCancelled && (next == End || fuel == 0)
    ensures r.outcome.Unfinished? ==> |r.ids| == fuel
    decreases fuel
  {
    if next == End then Run(Completed, [], [], flag, false, tokenCancelled)
    else if fuel == 0 then Run(Unfinished(next), [], [], flag, true, tokenCancelled)
    else
      var at := CancelAt(cancel, k);
      match PlayLine(lines, ui, flag, next, tokenCancelled, at)
      case KeyNotFound => Run(MissingLine(next), [], [], Clear, true, false)
      case LineHung(ev) => Run(Hung, ev, Looked(next, ev), Orphaned, true, false)
      case LineCancelled(f, ev) => Run(Cancelled, ev, Looked(next, ev), f, false, false)
      case Finished(n, ev) =>
        if Observes(tokenCancelled, at, InterLineDelay) then Run(Cancelled, ev, [next], Clear, false, false)
        else
          var rest := Walk(lines, ui, Clear, n, false, cancel, k + 1, fuel - 1);
          rest.(events := ev + rest.events, ids := [next] + rest.ids)
  }

  /** A line that finishes with no cancel in the pause after it is followed by the walk from its next id. */
  lemma WalkStep(lines: map<string, DialogueLine>, ui: Subtitles, flag: LineFlag, next: string,
                 tokenCancelled: bool, cancel: Cancel, k: nat, fuel: nat)
    requires next != End && fuel > 0
    requires PlayLine(lines, ui, flag, next, tokenCancelled, CancelAt(cancel, k)).Finished?
    requires !Observes(tokenCancelled, CancelAt(cancel, k), InterLineDelay)
    ensures var line := PlayLine(lines, ui, flag, next, tokenCancelled, CancelAt(cancel, k));
            var rest := Walk(lines, ui, Clear, line.next, false, cancel, k + 1, fuel - 1);
            Walk(lines, ui, flag, next, tokenCancelled, cancel, k, fuel)
            == rest.(events := line.events + rest.events, ids := [next] + rest.ids)
  {
  }

  /**
    `ids` are the chain from `first`, at most `fuel` of them, and the outcome
    names the id after them: `END` when completed, the dangling id, or the id
    still to play.
   */
  predicate OnChain(lines: map<string, DialogueLine>, first: string, ids: seq<string>, o: Outcome, fuel: nat) {
    && ids == ChainIds(lines, first, |ids|)
    && |ids| <= fuel
    && (o.Completed? ==> Follow(lines, first, |ids|) == End)
    && (o.MissingLine? ==> o.id == Follow(lines, first, |ids|))
    && (o.Unfinished? ==> o.next == Follow(lines, first, |ids|))
  }

  /** Prepending a line to a walk along the chain from its `nextLine` gives a walk along the chain from the line. */
  lemma OnChainPrepend(lines: map<string, DialogueLine>, id: string, next: string, ids: seq<string>,
                       rest: seq<string>, o: Outcome, restOutcome: Outcome, fuel: nat)
    requires id != End && id in lines && next == lines[id].nextLine && fuel > 0
    requires ids == [id] + rest && o == restOutcome
    requires OnChain(lines, next, rest, restOutcome, fuel - 1)
    ensures OnChain(lines, id, ids, o, fuel)
  {
    assert Follow(lines, id, |ids|) == Follow(lines, next, |rest|);
  }

  /** When the walk stops at the first id, its events and ids are that call's, and it has not completed. */
  lemma WalkStops(lines: map<string, DialogueLine>, ui: Subtitles, flag: LineFlag, next: string,
                         tokenCancelled: bool, cancel: Cancel, k: nat, fuel: nat)
    requires next != End && fuel > 0
    requires var line := PlayLine(lines, ui, flag, next, tokenCancelled, CancelAt(cancel, k));
             !line.Finished? || Observes(tokenCancelled, CancelAt(cancel, k), InterLineDelay)
    ensures var r := Walk(lines, ui, flag, next, tokenCancelled, cancel, k, fuel);
            var line := PlayLine(lines, ui, flag, next, tokenCancelled, CancelAt(cancel, k));
            && r.events == ResultEvents(line) && r.ids == Looked(next, r.events)
            && (r.ids == [] || (next in lines && r.ids == [next]))
            && (r.outcome.MissingLine? ==> r.outcome.id == next && r.ids == [])
            && !r.outcome.Completed? && !r.outcome.Unfinished?
  {
  }

  /**
    Whatever the cancellation, the walk looks up ids along the `nextLine` chain
    from `next`, at most `fuel` of them, and its outcome names the id after the
    walked part: `END` when completed, the dangling id, or the id still to play.
   */
  lemma {:induction false} WalkOnChain(lines: map<string, DialogueLine>, ui: Subtitles, flag: LineFlag, next: string,
                                       tokenCancelled: bool, cancel: Cancel, k: nat, fuel: nat)
    ensures var r := Walk(lines, ui, flag, next, tokenCancelled, cancel, k, fuel);
            OnChain(lines, next, r.ids, r.outcome, fuel)
    decreases fuel
  {
    if next != End && fuel > 0 {
      var at := CancelAt(cancel, k);
      var line := PlayLine(lines, ui, flag, next, tokenCancelled, at);
      if line.Finished? && !Observes(tokenCancelled, at, InterLineDelay) {
        var rest := Walk(lines, ui, Clear, line.next, false, cancel, k + 1, fuel - 1);
        WalkOnChain(lines, ui, Clear, line.next, false, cancel, k + 1, fuel - 1);
        WalkStep(lines, ui, flag, next, tokenCancelled, cancel, k, fuel);
        var r := Walk(lines, ui, flag, next, tokenCancelled, cancel, k, fuel);
        OnChainPrepend(lines, next, line.next, r.ids, rest.ids, r.outcome, rest.outcome, fuel);
      } else {
        WalkStops(lines, ui, flag, next, tokenCancelled, cancel, k, fuel);
      }
    }
  }

  /** The walk's looked-up ids are exactly the ids of its dialogue-state events, in order. */
  lemma {:induction false} WalkIdsMatchEvents(lines: map<string, DialogueLine>, ui: Subtitles, flag: LineFlag,
                                              next: string, tokenCancelled: bool, cancel: Cancel, k: nat, fuel: nat)
    ensures var r := Walk(lines, ui, flag, next, tokenCancelled, cancel, k, fuel);
            StateIds(r.events) == r.ids
    decreases fuel
  {
    if next != End && fuel > 0 {
      var at := CancelAt(cancel, k);
      var line := PlayLine(lines, ui, flag, next, tokenCancelled, at);
      if line.Finished? && !Observes(tokenCancelled, at, InterLineDelay) {
        WalkIdsMatchEvents(lines, ui, Clear, line.next, false, cancel, k + 1, fuel - 1);
        WalkIdsStep(lines, ui, flag, next, tokenCancelled, cancel, k, fuel);
      } else {
        PlayLineStateIds(lines, ui, flag, next, tokenCancelled, at);
        WalkStops(lines, ui, flag, next, tokenCancelled, cancel, k, fuel);
      }
    }
  }

  /** The inductive step of `WalkIdsMatchEvents`: a played line's state event goes before the rest of the walk's. */
  lemma WalkIdsStep(lines: map<string, DialogueLine>, ui: Subtitles, flag: LineFlag,
                    next: string, tokenCancelled: bool, cancel: Cancel, k: nat, fuel: nat)
    requires next != End && fuel > 0
    requires var line := PlayLine(lines, ui, flag, next, tokenCancelled, CancelAt(cancel, k));
             && line.Finished? && !Observes(tokenCancelled, CancelAt(cancel, k), InterLineDelay)
             && var rest := Walk(lines, ui, Clear, line.next, false, cancel, k + 1, fuel - 1);
                StateIds(rest.events) == rest.ids
    ensures var r := Walk(lines, ui, flag, next, tokenCancelled, cancel, k, fuel);
            StateIds(r.events) == r.ids
  {
    var at := CancelAt(cancel, k);
    var line := PlayLine(lines, ui, flag, next, tokenCancelled, at);
    var rest := Walk(lines, ui, Clear, line.next, false, cancel, k + 1, fuel - 1);
    PlayLineStateIds(lines, ui, flag, next, tokenCancelled, at);
    WalkStep(lines, ui, flag, next, tokenCancelled, cancel, k, fuel);
    var r := Walk(lines, ui, flag, next, tokenCancelled, cancel, k, fuel);
    assert StateIds(line.events) == [next];
    StateIdsPrepend(r.events, line.events, rest.events, r.ids, next, rest.ids);
  }

  /** A cancel landing in the pause after line `j` stops the walk: no line after `j` is looked up. */
  lemma {:induction false} CancelInPauseStopsWalk(lines: map<string, DialogueLine>, ui: Subtitles, flag: LineFlag,
                                                  next: string, tokenCancelled: bool, j: nat, k: nat, fuel: nat)
    requires k <= j
    ensures |Walk(lines, ui, flag, next, tokenCancelled, During(j, InterLineDelay), k, fuel).ids| <= j - k + 1
    decreases fuel
  {
    var cancel := During(j, InterLineDelay);
    if next != End && fuel > 0 {
      var at := CancelAt(cancel, k);
      var line := PlayLine(lines, ui, flag, next, tokenCancelled, at);
      if line.Finished? && !Observes(tokenCancelled, at, InterLineDelay) {
        assert k < j;
        var rest := Walk(lines, ui, Clear, line.next, false, cancel, k + 1, fuel - 1);
        CancelInPauseStopsWalk(lines, ui, Clear, line.next, false, j, k + 1, fuel - 1);
        WalkStep(lines, ui, flag, next, tokenCancelled, cancel, k, fuel);
      }
    }
  }

  /** On an already cancelled token the walk looks up one line at most and ends cancelled or on a dangling id. */
  lemma CancelledTokenStopsAfterOneLine(lines: map<string, DialogueLine>, ui: Subtitles, flag: LineFlag, next: string,
                                        cancel: Cancel, fuel: nat)
    ensures var r := Walk(lines, ui, flag, next, true, cancel, 0, fuel);
            && |r.ids| <= 1
            && (next != End && fuel > 0 ==> r.outcome.Cancelled? || r.outcome.MissingLine?)
  {
  }

  /** The dialogue manager's state between sequences, with whether `_token` is cancelled. */
  datatype Manager = Manager(flag: LineFlag, sequenceActive: bool, tokenCancelled: bool)

  /** The state of a freshly started manager. */
  const Idle: Manager := Manager(Clear, false, false)

  /**
    `PlayDialogueSequence(firstLineId)`. When a sequence is still marked active,
    it first waits for the line-active flag to clear and then cancels the token
    source; the walk then runs on that same, already cancelled, token. A token
    left cancelled makes the first wait of the next call throw at once.
   */
  function PlayDialogueSequence(m: Manager, lines: map<string, DialogueLine>, ui: Subtitles,
                                first: string, cancel: Cancel, fuel: nat): (r: Run)
    ensures r.ids == ChainIds(lines, first, |r.ids|)
    ensures r.outcome.Completed? ==> Follow(lines, first, |r.ids|) == End
    ensures r.outcome.MissingLine? ==> r.outcome.id !in lines && r.sequenceActive && r.flag == Clear
    ensures r.outcome.Cancelled? ==> !r.sequenceActive
    ensures r.outcome.PrologueCancelled? ==> r.sequenceActive && r.events == [] && r.flag == m.flag
    ensures first == End && !(m.sequenceActive && m.flag != Clear) ==> r.outcome.Completed? && r.events == []
    ensures m.sequenceActive || m.tokenCancelled ==> |r.ids| <= 1
    ensures (m.sequenceActive || m.tokenCancelled) && m.flag == Clear && first != End && fuel > 0 ==>
              r.outcome.Cancelled? || r.outcome.MissingLine?
    ensures r.tokenCancelled ==> r.ids == [] && (m.sequenceActive || m.tokenCancelled)
    ensures first == End && m.flag == Clear ==> (r.tokenCancelled <==> m.sequenceActive || m.tokenCancelled)
    ensures m.sequenceActive && m.flag != Clear && (m.tokenCancelled || cancel == DuringPrologue) ==>
              r.outcome.PrologueCancelled?
    ensures m.sequenceActive && m.flag == Orphaned && !m.tokenCancelled && cancel != DuringPrologue ==>
              r == Run(Hung, [], [], Orphaned, true, false)
  {
    if m.sequenceActive then
      if m.flag != Clear && m.tokenCancelled then Run(PrologueCancelled, [], [], m.flag, true, true)
      else if m.flag != Clear && cancel == DuringPrologue then Run(PrologueCancelled, [], [], m.flag, true, false)
      else if m.flag == Orphaned then Run(Hung, [], [], Orphaned, true, false)
      else
        CancelledTokenStopsAfterOneLine(lines, ui, Clear, first, cancel, fuel);
        WalkOnChain(lines, ui, Clear, first, true, cancel, 0, fuel);
        Walk(lines, ui, Clear, first, true, cancel, 0, fuel)
    else
      CancelledTokenStopsAfterOneLine(lines, ui, m.flag, first, cancel, fuel);
      WalkOnChain(lines, ui, m.flag, first, m.tokenCancelled, cancel, 0, fuel);
      Walk(lines, ui, m.flag, first, m.tokenCancelled, cancel, 0, fuel)
  }

  /** The manager state a sequence leaves behind. */
  function Leaves(r: Run): (m: Manager)
    ensures m.flag == r.flag && m.sequenceActive == r.sequenceActive && m.tokenCancelled == r.tokenCancelled
  {
    Manager(r.flag, r.sequenceActive, r.tokenCancelled)
  }

  /** `CancelDialogue` between sequences: cancel the token source and replace it with a fresh one. */
  function CancelDialogue(m: Manager): (m': Manager)
    ensures !m'.tokenCancelled
    ensures m'.flag == m.flag && m'.sequenceActive == m.sequenceActive
  {
    m.(tokenCancelled := false)
  }

  /** A line's subtitle is exactly `Speaker + ": " + Text`, shown exactly when subtitles are on. */
  lemma PlayLineSubtitle(lines: map<string, DialogueLine>, ui: Subtitles, flag: LineFlag, lineId: string,
                         tokenCancelled: bool, at: Option<Point>)
    ensures var r := PlayLine(lines, ui, flag, lineId, tokenCancelled, at);
            && (forall e :: e in ResultEvents(r) && e.ShowSubtitle? ==>
                  ShowsSubtitles(ui) && lineId in lines
                  && e.text == lines[lineId].speaker + ": " + lines[lineId].text)
            && (r.Finished? ==> (ShowSubtitle(SubtitleText(lines[lineId])) in r.events <==> ShowsSubtitles(ui)))
            && (r.Finished? ==> (ClearSubtitle in r.events <==> ui.textBox && ui.textComponent))
  {
    var r := PlayLine(lines, ui, flag, lineId, tokenCancelled, at);
    PlayLineShape(lines, ui, flag, lineId, tokenCancelled, at);
    if ResultEvents(r) != [] {
      OpeningEventsContents(lines[lineId], lineId, ui);
    }
  }

  /** The audio goes to the speaker's object, and is posted for every known speaker and no other. */
  lemma PlayLineDispatch(lines: map<string, DialogueLine>, ui: Subtitles, flag: LineFlag, lineId: string,
                         tokenCancelled: bool, at: Option<Point>)
    ensures var r := PlayLine(lines, ui, flag, lineId, tokenCancelled, at);
            && (forall e :: e in ResultEvents(r) && e.PostAudio? ==>
                  lineId in lines && SpeakerTarget(lines[lineId].speaker) == Some(e.target))
            && (r.Finished? ==> ((exists e :: e in r.events && e.PostAudio?) <==> lines[lineId].speaker in SpeakerTable))
  {
    var r := PlayLine(lines, ui, flag, lineId, tokenCancelled, at);
    PlayLineShape(lines, ui, flag, lineId, tokenCancelled, at);
    if ResultEvents(r) != [] {
      OpeningEventsContents(lines[lineId], lineId, ui);
    }
  }

  /** A post-delay wait happens exactly when the line's post-delay is positive. */
  lemma PlayLinePostDelay(lines: map<string, DialogueLine>, ui: Subtitles, flag: LineFlag, lineId: string,
                          tokenCancelled: bool, at: Option<Point>)
    ensures var r := PlayLine(lines, ui, flag, lineId, tokenCancelled, at);
            r.Finished? ==> ((exists e :: e in r.events && e.PostDelay?) <==> lines[lineId].postDelay > 0.0)
  {
    var r := PlayLine(lines, ui, flag, lineId, tokenCancelled, at);
    PlayLineShape(lines, ui, flag, lineId, tokenCancelled, at);
    if r.Finished? {
      var line := lines[lineId];
      OpeningEventsContents(line, lineId, ui);
      if line.postDelay > 0.0 {
        assert r.events[|r.events| - 1].PostDelay?;
      }
    }
  }

  /**
    With the flag clear on entry and no cancel at the audio wait, a line hangs
    exactly when it exists, its subtitle is shown (marking it active) and its
    speaker has no object, so no end-of-event callback ever clears the flag.
   */
  lemma UnknownSpeakerHangs(lines: map<string, DialogueLine>, ui: Subtitles, lineId: string, at: Option<Point>)
    requires at != Some(AudioWait)
    ensures PlayLine(lines, ui, Clear, lineId, false, at).LineHung? <==>
            lineId in lines && ShowsSubtitles(ui) && lines[lineId].speaker !in SpeakerTable
  {
  }

  /** With the flag clear and no cancel, a line that exists and cannot hang finishes. */
  lemma PlayLineFinishes(lines: map<string, DialogueLine>, ui: Subtitles, lineId: string)
    requires lineId in lines && NoSilentLines(lines, ui)
    ensures PlayLine(lines, ui, Clear, lineId, false, None).Finished?
  {
    assert ShowsSubtitles(ui) ==> lines[lineId].speaker in SpeakerTable;
  }

  /**
    A cancel landing where a line waits cancels it: at the entry wait, with the
    flag it found; at the audio wait, after the opening, with the flag the
    opening set; and in a post-delay of at least a millisecond, after everything
    the line would have done, with the flag clear.
   */
  lemma CancelLandsWhereLineWaits(lines: map<string, DialogueLine>, ui: Subtitles, flag: LineFlag, lineId: string,
                                  tokenCancelled: bool)
    ensures flag != Clear ==>
              PlayLine(lines, ui, flag, lineId, tokenCancelled, Some(EntryWait)) == LineCancelled(flag, [])
    ensures flag == Clear && lineId in lines && ShowsSubtitles(ui) ==>
              PlayLine(lines, ui, flag, lineId, tokenCancelled, Some(AudioWait))
              == LineCancelled(if lines[lineId].speaker in SpeakerTable then AwaitingCallback else Orphaned,
                               OpeningEvents(lines[lineId], lineId, ui))
    ensures var r := PlayLine(lines, ui, flag, lineId, tokenCancelled, None);
            r.Finished? && lines[lineId].postDelay > 0.0 && DelayMillis(lines[lineId].postDelay) > 0 ==>
              PlayLine(lines, ui, flag, lineId, tokenCancelled, Some(PostDelayWait)) == LineCancelled(Clear, r.events)
  {
  }

  /** The line-active flag is left set only when the subtitle was shown. */
  lemma LineActiveOnlyWithSubtitles(lines: map<string, DialogueLine>, ui: Subtitles, lineId: string,
                                    tokenCancelled: bool, at: Option<Point>)
    ensures var r := PlayLine(lines, ui, Clear, lineId, tokenCancelled, at);
            r.LineCancelled? && r.flag != Clear ==> ShowsSubtitles(ui)
  {
  }

  /** No line can leave the flag set with nothing to clear it. */
  predicate NoSilentLines(lines: map<string, DialogueLine>, ui: Subtitles) {
    ShowsSubtitles(ui) ==> forall id :: id in lines ==> lines[id].speaker in SpeakerTable
  }

  /**
    Without cancellation, the walk plays exactly the chain from its first id, in
    `nextLine` order, and ends at `END`, at a dangling id, or when the fuel runs out.
   */
  lemma {:induction false} WalkFollowsChain(lines: map<string, DialogueLine>, ui: Subtitles, next: string,
                                            k: nat, fuel: nat)
    requires NoSilentLines(lines, ui)
    ensures Walk(lines, ui, Clear, next, false, NoCancel, k, fuel).ids == ChainIds(lines, next, fuel)
    ensures !Walk(lines, ui, Clear, next, false, NoCancel, k, fuel).outcome.Cancelled?
    ensures !Walk(lines, ui, Clear, next, false, NoCancel, k, fuel).outcome.Hung?
    decreases fuel, 1
  {
    var r := Walk(lines, ui, Clear, next, false, NoCancel, k, fuel);
    if next == End || fuel == 0 {
      assert r.ids == [] && (r.outcome.Completed? || r.outcome.Unfinished?);
    } else if next !in lines {
      assert CancelAt(NoCancel, k) == None;
      assert PlayLine(lines, ui, Clear, next, false, None) == KeyNotFound;
      assert r == Run(MissingLine(next), [], [], Clear, true, false);
    } else {
      WalkFollowsChainFrom(lines, ui, next, k, fuel);
    }
  }

  /** The inductive step of `WalkFollowsChain`: the first line is played, then the chain from its `nextLine`. */
  lemma {:induction false} WalkFollowsChainFrom(lines: map<string, DialogueLine>, ui: Subtitles, next: string,
                                                k: nat, fuel: nat)
    requires NoSilentLines(lines, ui) && next != End && next in lines && fuel > 0
    ensures Walk(lines, ui, Clear, next, false, NoCancel, k, fuel).ids == ChainIds(lines, next, fuel)
    ensures !Walk(lines, ui, Clear, next, false, NoCancel, k, fuel).outcome.Cancelled?
    ensures !Walk(lines, ui, Clear, next, false, NoCancel, k, fuel).outcome.Hung?
    decreases fuel, 0
  {
    var r := Walk(lines, ui, Clear, next, false, NoCancel, k, fuel);
    var n := lines[next].nextLine;
    var rest := Walk(lines, ui, Clear, n, false, NoCancel, k + 1, fuel - 1);
    WalkFollowsChain(lines, ui, n, k + 1, fuel - 1);
    assert rest.ids == ChainIds(lines, n, fuel - 1);
    assert !rest.outcome.Cancelled? && !rest.outcome.Hung?;
    WalkPlaysOne(lines, ui, next, k, fuel);
    assert r.outcome == rest.outcome;
    assert r.ids == [next] + rest.ids;
    assert ChainIds(lines, next, fuel) == [next] + ChainIds(lines, n, fuel - 1);
  }

  /** Without cancellation, a line that exists and cannot hang is played and the walk goes on from its `nextLine`. */
  lemma WalkPlaysOne(lines: map<string, DialogueLine>, ui: Subtitles, next: string, k: nat, fuel: nat)
    requires NoSilentLines(lines, ui) && next != End && next in lines && fuel > 0
    ensures Walk(lines, ui, Clear, next, false, NoCancel, k, fuel).ids
            == [next] + Walk(lines, ui, Clear, lines[next].nextLine, false, NoCancel, k + 1, fuel - 1).ids
    ensures Walk(lines, ui, Clear, next, false, NoCancel, k, fuel).outcome
            == Walk(lines, ui, Clear, lines[next].nextLine, false, NoCancel, k + 1, fuel - 1).outcome
  {
    assert CancelAt(NoCancel, k) == None;
    var line := PlayLine(lines, ui, Clear, next, false, None);
    PlayLineFinishes(lines, ui, next);
    var rest := Walk(lines, ui, Clear, line.next, false, NoCancel, k + 1, fuel - 1);
    WalkStep(lines, ui, Clear, next, false, NoCancel, k, fuel);
  }

  /**
    Starting at `END` plays nothing and leaves the sequence inactive. When a
    sequence was still marked active, the superseding cancel has no iteration
    after it to renew the token, so the token is left cancelled.
   */
  lemma EndFirstPlaysNothing(m: Manager, lines: map<string, DialogueLine>, ui: Subtitles, cancel: Cancel, fuel: nat)
    requires m.flag == Clear
    ensures PlayDialogueSequence(m, lines, ui, End, cancel, fuel)
            == Run(Completed, [], [], Clear, false, m.sequenceActive || m.tokenCancelled)
  {
  }

  /**
    After a superseding call that starts at `END`, the next sequence walks on the
    token left cancelled: it looks up one line at most and ends cancelled or on a
    dangling id. A `CancelDialogue` in between renews the token, and the next
    sequence then plays as on a fresh manager.
   */
  lemma LeftoverTokenCutsNextSequence(m: Manager, lines: map<string, DialogueLine>, ui: Subtitles,
                                      cancel1: Cancel, fuel1: nat, first: string, cancel: Cancel, fuel: nat)
    requires m.sequenceActive && m.flag == Clear
    ensures var left := Leaves(PlayDialogueSequence(m, lines, ui, End, cancel1, fuel1));
            && left == Manager(Clear, false, true)
            && |PlayDialogueSequence(left, lines, ui, first, cancel, fuel).ids| <= 1
            && (first != End && fuel > 0 ==>
                  PlayDialogueSequence(left, lines, ui, first, cancel, fuel).outcome.Cancelled?
                  || PlayDialogueSequence(left, lines, ui, first, cancel, fuel).outcome.MissingLine?)
            && PlayDialogueSequence(CancelDialogue(left), lines, ui, first, cancel, fuel)
               == PlayDialogueSequence(Idle, lines, ui, first, cancel, fuel)
  {
    EndFirstPlaysNothing(m, lines, ui, cancel1, fuel1);
  }

  /**
    The chain A, B, END after a superseding call that started at `END`: A opens
    on the cancelled token and is cancelled at its audio wait; B never plays and
    A's subtitle is never cleared.
   */
  lemma LeftoverTokenScenario()
    ensures var left := Leaves(PlayDialogueSequence(Manager(Clear, true, false), ScenarioLines, ScenarioUi,
                                                    End, NoCancel, 10));
            PlayDialogueSequence(left, ScenarioLines, ScenarioUi, "A", NoCancel, 10)
            == Run(Cancelled, [ShowSubtitle("Iris: Wake up."), SetDialogueState("A"), PostAudio(Iris)], ["A"],
                   AwaitingCallback, false, false)
  {
    assert SubtitleText(ScenarioLines["A"]) == "Iris: Wake up.";
    assert CancelAt(NoCancel, 0) == None;
  }

  /**
    A dangling id leaves the sequence marked active, so the next sequence takes
    the superseding path: it cancels the token it then walks on and is cut off
    at its first suspension, after at most one line.
   */
  lemma DanglingReferenceCutsNextSequence(m: Manager, lines: map<string, DialogueLine>, ui: Subtitles,
                                          first1: string, cancel1: Cancel, fuel1: nat,
                                          first2: string, cancel2: Cancel, fuel2: nat)
    requires PlayDialogueSequence(m, lines, ui, first1, cancel1, fuel1).outcome.MissingLine?
    ensures var r2 := PlayDialogueSequence(Leaves(PlayDialogueSequence(m, lines, ui, first1, cancel1, fuel1)),
                                           lines, ui, first2, cancel2, fuel2);
            && |r2.ids| <= 1
            && (first2 != End && fuel2 > 0 ==> r2.outcome.Cancelled? || r2.outcome.MissingLine?)
  {
  }

  /**
    Cancelling a line that hangs leaves the flag set with nothing to clear it;
    every later sequence not starting at `END` then waits forever on entry.
   */
  lemma OrphanedFlagBlocksLaterSequences(lines: map<string, DialogueLine>, ui: Subtitles, lineId: string,
                                         first: string, fuel: nat)
    requires lineId in lines && lineId != End && ShowsSubtitles(ui) && lines[lineId].speaker !in SpeakerTable
    requires first != End && fuel > 0
    ensures var r1 := PlayDialogueSequence(Idle, lines, ui, lineId, During(0, AudioWait), 1);
            && r1.outcome.Cancelled? && r1.flag == Orphaned
            && PlayDialogueSequence(Leaves(r1), lines, ui, first, NoCancel, fuel) == Run(Hung, [], [], Orphaned, true, false)
  {
    assert SpeakerTarget(lines[lineId].speaker).None?;
    assert CancelAt(During(0, AudioWait), 0) == Some(AudioWait);
    assert PlayLine(lines, ui, Clear, lineId, false, Some(AudioWait)).LineCancelled?;
  }

  /** A two-line chain A, B, END with known speakers. */
  const ScenarioLines: map<string, DialogueLine> := map[
    "A" := DialogueLine("Wake up.", "Iris", 5.0, 0.0, "B"),
    "B" := DialogueLine("Where am I?", "Seru", 5.0, 0.5, "END")]

  const ScenarioUi: Subtitles := Subtitles(true, true, true)

  lemma ScenarioLineA()
    ensures PlayLine(ScenarioLines, ScenarioUi, Clear, "A", false, None)
            == Finished("B", [ShowSubtitle("Iris: Wake up."), SetDialogueState("A"), PostAudio(Iris), ClearSubtitle])
  {
    assert SubtitleText(ScenarioLines["A"]) == "Iris: Wake up.";
  }

  lemma ScenarioLineB()
    ensures PlayLine(ScenarioLines, ScenarioUi, Clear, "B", false, None)
            == Finished("END", [ShowSubtitle("Seru: Where am I?"), SetDialogueState("B"), PostAudio(Player),
                                ClearSubtitle, PostDelay(500)])
  {
    assert SubtitleText(ScenarioLines["B"]) == "Seru: Where am I?";
    assert DelayMillis(0.5) == 500;
  }

  lemma ScenarioWalkB()
    ensures Walk(ScenarioLines, ScenarioUi, Clear, "B", false, NoCancel, 1, 9)
            == Run(Completed, [ShowSubtitle("Seru: Where am I?"), SetDialogueState("B"), PostAudio(Player),
                               ClearSubtitle, PostDelay(500)], ["B"], Clear, false, false)
  {
    ScenarioLineB();
    var b := [ShowSubtitle("Seru: Where am I?"), SetDialogueState("B"), PostAudio(Player), ClearSubtitle, PostDelay(500)];
    assert b + [] == b;
  }

  lemma ScenarioWalkA()
    ensures Walk(ScenarioLines, ScenarioUi, Clear, "A", false, NoCancel, 0, 10)
            == Run(Completed,
                   [ShowSubtitle("Iris: Wake up."), SetDialogueState("A"), PostAudio(Iris), ClearSubtitle]
                   + [ShowSubtitle("Seru: Where am I?"), SetDialogueState("B"), PostAudio(Player), ClearSubtitle,
                      PostDelay(500)],
                   ["A", "B"], Clear, false, false)
  {
    ScenarioLineA();
    ScenarioWalkB();
    assert CancelAt(NoCancel, 0) == None;
  }

  /**
    The chain A, B, END with subtitles on: each line's subtitle, dialogue state,
    audio post and subtitle clear in order, B's post-delay, and nothing for `END`.
   */
  lemma TwoLineScenario()
    ensures PlayDialogueSequence(Idle, ScenarioLines, ScenarioUi, "A", NoCancel, 10)
            == Run(Completed,
                   [ShowSubtitle("Iris: Wake up."), SetDialogueState("A"), PostAudio(Iris), ClearSubtitle,
                    ShowSubtitle("Seru: Where am I?"), SetDialogueState("B"), PostAudio(Player), ClearSubtitle,
                    PostDelay(500)],
                   ["A", "B"], Clear, false, false)
  {
    var a := [ShowSubtitle("Iris: Wake up."), SetDialogueState("A"), PostAudio(Iris), ClearSubtitle];
    var b := [ShowSubtitle("Seru: Where am I?"), SetDialogueState("B"), PostAudio(Player), ClearSubtitle, PostDelay(500)];
    ScenarioWalkA();
    assert a + b == [ShowSubtitle("Iris: Wake up."), SetDialogueState("A"), PostAudio(Iris), ClearSubtitle,
                     ShowSubtitle("Seru: Where am I?"), SetDialogueState("B"), PostAudio(Player), ClearSubtitle,
                     PostDelay(500)];
  }
}
