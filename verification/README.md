# GeoBlade gameplay logic in Dafny

This project models three pieces of decision logic from the GeoBlade game scripts. The engine calls around them are abstracted away.

- **Dialogue manager** (`DialogueManager.cs`). The loader turns rows of the `dialogue_lines` table into a map from line id to `DialogueLine`. The sequencer then plays a chain of lines, following each line's `NextLine` until the `END` sentinel. For each line it shows the subtitle `Speaker: Text`, sets the `Dialogue_Line` audio state, posts the dialogue audio event on the speaker's game object, waits for the audio to end, clears the subtitle and waits out the line's post-delay.
- **Geo receptacle** (`GeoReceptacle.cs`). A stack of energy pickups with a running `totalEnergy` and a `targetReached` flag.
- **Security droid** (`SecurityDroidController.cs`, `Update`). The per-frame chase and attack decision.

Files:

- `outcomes.dfy`: module `Outcomes`, with `Option` and `Result`.
- `dialogue_lines.dfy`: module `DialogueLines`. It holds `DialogueLine`, the loader and its lemmas.
- `dialogue_sequencer.dfy`: module `DialogueSequencer`. It holds speaker dispatch, `PlayLine`, the chain walk and `PlayDialogueSequence`.
- `geo_receptacle.dfy`: module `GeoReceptacle`.
- `security_droid.dfy`: module `SecurityDroid`.

How the model treats the engine and the asynchronous code:

- **CSV rows and parsing.** A row of the table is a map from column name to cell text. Reading a column the row lacks throws, as a dictionary lookup does. `float.TryParse` is a parameter of type `string -> Option<real>`.
- **Whether the table could be read.** This is an `Option` input. `None` stands for the `null` that `CsvParser.Read` returns.
- **Suspension points.** The asynchronous sequencer runs on a single-threaded event loop. Each `await Task.Delay(..., token)` is a suspension point, named by the `Point` datatype.
- **Cancellation.** A call of `CancelDialogue` is an input naming the suspension at which it happens. If the walk never suspends there, the call does not reach the walk. A token that is already cancelled makes the next suspension throw. Between sequences, `CancelDialogue` is a function on the manager state that renews the token.
- **End-of-audio callback.** The audio engine's end-of-event callback clears `_lineActive`. It arrives while the sequencer waits on that flag. The flag is modelled as `LineFlag`: clear, set with a callback still to come, or set with no callback coming.
- **Engine effects.** Subtitle text, the audio state and the audio posts are output `Event`s.
- **Time and fuel.** Chains may be cyclic, so the walk takes a fuel bound on the number of lines. When the fuel runs out it reports `Unfinished`.
- **Droid inputs.** The droid's distance to the player and the game time are inputs. `float` values are `real`.
- **Integer width.** `totalEnergy` is a C# `int`, so it wraps modulo 2^32. The wrap is written out explicitly.

Behaviour of the code as written, as the model states it:

- **Unknown speakers hang.** A line whose speaker has no game object gets no audio post. If its subtitle was shown, `_lineActive` stays set and nothing clears it. The line then waits forever (`UnknownSpeakerHangs`).
- **Cancelling a hung line blocks later sequences.** If that hung line is cancelled, the flag stays set. The next sequence that does not start at `END` then waits forever before its first line (`OrphanedFlagBlocksLaterSequences` proves this for the sequence right after).
- **A dangling id leaves the sequence active.** When a `NextLine` id is not in the table, the lookup throws past the `catch`, which handles only cancellation. `_sequenceActive` therefore stays true.
- **The next sequence is then cut short.** The next `PlayDialogueSequence` takes the path meant for superseding a running sequence. That path cancels the token source and then walks on the same cancelled token. The new sequence therefore stops at its first suspension, after at most one line (`DanglingReferenceCutsNextSequence`).
- **Superseding does not hand off.** The prologue (`DialogueManager.cs:100-107`) cancels the token that the new walk then uses. The new sequence is therefore cut off at its first suspension.
- **A superseding call that starts at `END` leaves the token cancelled.** The token is renewed only in the `finally` of a loop iteration (line 124), and the loop breaks before any iteration. The next sequence then walks on the cancelled token and is cut off after at most one line, with that line's subtitle left on screen (`LeftoverTokenCutsNextSequence`, `LeftoverTokenScenario`). A `CancelDialogue` in between renews the token.

## Model

| member | source | states |
|---|---|---|
| DialogueLines.RowToLine | GeoBlade/Assets/Scripts/DialogueManager.cs:79-91 | the duration is the parsed `line_duration` when it parses and exactly 5.0 otherwise; the post-delay is the parsed `post_delay` or exactly 0.0; the text comes from column `line_<locale>`, and the speaker and next id come from their columns |
| DialogueLines.MissingColumnOf | GeoBlade/Assets/Scripts/DialogueManager.cs:80-91 | the column lookup that throws is the first column, in read order (duration, post-delay, id, text, speaker, next line), that the row lacks; there is none exactly when the row has every column read |
| DialogueLines.StoreRow | GeoBlade/Assets/Scripts/DialogueManager.cs:91 | the row's line is stored under its `line_id` and replaces any earlier entry; every other entry is unchanged, and only that id is added |
| DialogueLines.LoadRows | GeoBlade/Assets/Scripts/DialogueManager.cs:78-94 | the row loop returns true exactly when every row has the columns it reads, and otherwise throws a missing-column error; entries are never removed |
| DialogueLines.FirstIncompleteRowThrows | GeoBlade/Assets/Scripts/DialogueManager.cs:78-94 | the first row that lacks a column throws on the first column it lacks, with every row before it already stored |
| DialogueLines.LoadDialogLines | GeoBlade/Assets/Scripts/DialogueManager.cs:67-95 | a locale other than `en_US` or `test` throws NotSupported and leaves the map untouched; an unreadable table returns false and adds nothing; returning true needs a supported locale and a readable table; with a supported locale and a readable table the outcome is exactly the row loop's, including a missing-column throw partway through, with the rows before it already stored |
| DialogueLines.LocaleCheckedBeforeData | GeoBlade/Assets/Scripts/DialogueManager.cs:69-73 | for an unsupported locale the outcome is the same whatever the table holds: the locale is checked before any data is read |
| DialogueLines.LoadRowsLastWins | GeoBlade/Assets/Scripts/DialogueManager.cs:78-92 | after loading complete rows, the keys are the old keys plus the row ids; each id maps to the line of the last row carrying it; ids no row mentions keep their old line |
| DialogueLines.LoadSucceedsIffRowsComplete | GeoBlade/Assets/Scripts/DialogueManager.cs:73-94 | with a supported locale and a readable table, loading returns true exactly when every row is complete |
| DialogueLines.LaterRowReplaces | GeoBlade/Assets/Scripts/DialogueManager.cs:91 | two rows with the same id leave the second row's line under that id and change nothing else |
| DialogueSequencer.SpeakerTarget | GeoBlade/Assets/Scripts/DialogueManager.cs:164-174 | the chain of speaker comparisons is the table: Seru, Unknown and The Core go to the player; Iris goes to Iris; Security Droid 1 and 2 go to their droids; every other speaker gets no target; each speaker has one target at most |
| DialogueSequencer.OpeningEvents | GeoBlade/Assets/Scripts/DialogueManager.cs:143-174 | a looked-up line shows the subtitle `Speaker: Text` exactly when subtitles are on, and sets the dialogue state once, for its own id |
| DialogueSequencer.OpeningEventsContents | GeoBlade/Assets/Scripts/DialogueManager.cs:143-174 | every subtitle shown is the line's own and appears only with subtitles on; audio is posted only on the speaker's target, and it is posted exactly when the speaker has one; nothing is cleared and nothing waits before the audio wait |
| DialogueSequencer.PlayLine | GeoBlade/Assets/Scripts/DialogueManager.cs:136-194 | with the flag clear, a missing id fails the lookup, and a failed lookup means the id is missing; a call with any effect looked its line up; a finished line has effects and returns that line's `NextLine`; with a cancelled token the line never hangs, and cancels at entry when the flag is set |
| DialogueSequencer.PlayLineStateIds | GeoBlade/Assets/Scripts/DialogueManager.cs:141-153 | a call sets the dialogue state exactly once, for its own id, when it got as far as the lookup, and not at all otherwise |
| DialogueSequencer.PlayLineFinishes | GeoBlade/Assets/Scripts/DialogueManager.cs:136-194 | with the flag clear and no cancellation, a line that exists finishes whenever no line with subtitles shown lacks an audio target |
| DialogueSequencer.PlayLineSubtitle | GeoBlade/Assets/Scripts/DialogueManager.cs:143-187 | every subtitle shown is exactly `Speaker + ": " + Text`, and it is shown only when subtitles are enabled and the text box and its text component exist; a finished line clears the subtitle exactly when the box has a text component |
| DialogueSequencer.PlayLineDispatch | GeoBlade/Assets/Scripts/DialogueManager.cs:164-174 | audio is posted only on the speaker's target; a finished line posted audio exactly when its speaker is in the table |
| DialogueSequencer.PlayLinePostDelay | GeoBlade/Assets/Scripts/DialogueManager.cs:189-191 | a finished line waited out a post-delay exactly when its PostDelay is positive |
| DialogueSequencer.UnknownSpeakerHangs | GeoBlade/Assets/Scripts/DialogueManager.cs:143-187 | with the flag clear and no cancel at the audio wait, a line hangs exactly when it exists, its subtitle is shown and its speaker has no target |
| DialogueSequencer.CancelLandsWhereLineWaits | GeoBlade/Assets/Scripts/DialogueManager.cs:137-191 | a cancel landing at the entry wait cancels the line before the lookup with the flag it found; at the audio wait of a line with subtitles shown, it cancels after the opening events, with the flag set (callback pending for a known speaker, orphaned otherwise); in a post-delay of at least a millisecond, it cancels after all the line's events with the flag clear |
| DialogueSequencer.LineActiveOnlyWithSubtitles | GeoBlade/Assets/Scripts/DialogueManager.cs:143-151 | a cancelled line leaves `_lineActive` set only when its subtitle was shown |
| DialogueSequencer.Walk | GeoBlade/Assets/Scripts/DialogueManager.cs:109-128 | the loop never ends in the superseding wait; `_sequenceActive` is left true exactly when the walk stopped on a dangling id, hung, or is still running; a dangling id is neither in the table nor `END` and leaves the line flag clear; a walk still running has a next id other than `END` and has used all its fuel, so a dangling id reached with fuel left ends the walk as dangling; the token is left cancelled exactly when it was cancelled on entry and no iteration ran (the first id is `END`, or the fuel is zero) |
| DialogueSequencer.WalkOnChain | GeoBlade/Assets/Scripts/DialogueManager.cs:109-128 | whatever the cancellation, the looked-up ids are the `NextLine` chain from the first id, at most the fuel many; a completed walk's next id is `END`, and a dangling or still-running walk names the id after the looked-up ones |
| DialogueSequencer.WalkIdsMatchEvents | GeoBlade/Assets/Scripts/DialogueManager.cs:117-118 | the ids the walk looked up are exactly the ids of its dialogue-state events, in order |
| DialogueSequencer.CancelInPauseStopsWalk | GeoBlade/Assets/Scripts/DialogueManager.cs:116-125 | a cancel in the pause after the j-th line ends the loop: no more than j + 1 lines are looked up |
| DialogueSequencer.CancelledTokenStopsAfterOneLine | GeoBlade/Assets/Scripts/DialogueManager.cs:106-125 | on a token cancelled before the loop, at most one line is looked up, and the walk ends cancelled or on a dangling id |
| DialogueSequencer.WalkFollowsChain | GeoBlade/Assets/Scripts/DialogueManager.cs:109-128 | without cancellation, and with no line that could hang, the lines played are exactly the reference chain from the first id; the walk ends at `END`, at a dangling id or when the fuel runs out |
| DialogueSequencer.PlayDialogueSequence | GeoBlade/Assets/Scripts/DialogueManager.cs:99-129 | the played ids follow the chain; completion means `END` is next; a dangling id leaves the sequence active; a cancellation clears it; when a sequence is still marked active and the line flag is set, a cancel in the superseding wait, or a token already cancelled, makes that wait throw and escape (the sequence stays active); with an orphaned flag and no such cancel it hangs there; when a sequence is still marked active, the new one plays one line at most; if in addition the line flag is clear, the first id is not `END` and the fuel is positive, it ends cancelled or dangling; a token left cancelled by the previous call has the same effect; the call leaves the token cancelled only when it looked nothing up and either superseded or found the token cancelled, and a call starting at `END` with the flag clear leaves it cancelled exactly then |
| DialogueSequencer.CancelDialogue | GeoBlade/Assets/Scripts/DialogueManager.cs:131-134 | between sequences, the token is renewed and uncancelled, and both flags are kept |
| DialogueSequencer.EndFirstPlaysNothing | GeoBlade/Assets/Scripts/DialogueManager.cs:99-128 | with the line flag clear, starting at `END` looks nothing up, emits nothing and leaves the sequence inactive; the token is left cancelled exactly when a sequence was still marked active (the superseding cancel at line 106 with no iteration to renew it) or the token was already cancelled |
| DialogueSequencer.DanglingReferenceCutsNextSequence | GeoBlade/Assets/Scripts/DialogueManager.cs:99-128 | after a sequence stops on a dangling id, the next sequence plays one line at most and ends cancelled or dangling |
| DialogueSequencer.LeftoverTokenCutsNextSequence | GeoBlade/Assets/Scripts/DialogueManager.cs:99-134 | a superseding call starting at `END` leaves an idle manager whose token is cancelled; the next sequence then looks up one line at most and ends cancelled or dangling; with a `CancelDialogue` in between, the next sequence plays exactly as on a fresh manager |
| DialogueSequencer.LeftoverTokenScenario | GeoBlade/Assets/Scripts/DialogueManager.cs:99-194 | on the chain A, B, END after such a call, A shows its subtitle, sets its state and posts its audio, then is cancelled at the audio wait: B never plays and the subtitle is never cleared |
| DialogueSequencer.OrphanedFlagBlocksLaterSequences | GeoBlade/Assets/Scripts/DialogueManager.cs:136-187 | cancelling a line whose speaker has no target, while it waits for audio, leaves `_lineActive` set with nothing to clear it; the next sequence then hangs before its first line |
| DialogueSequencer.TwoLineScenario | GeoBlade/Assets/Scripts/DialogueManager.cs:99-194 | the chain A, B, END produces, in order: subtitle, state, audio and clear for A, then the same for B, then B's 500 ms post-delay; it completes without looking up `END` |
| GeoReceptacle.AddPickup | GeoBlade/Assets/Scripts/GeoReceptacle.cs:11-17 | pushes the pickup on top, raises `totalEnergy` by exactly its `energyValue` (wrapping as C# `int` does), and sets `targetReached` exactly when target equals total |
| GeoReceptacle.RemovePickup | GeoBlade/Assets/Scripts/GeoReceptacle.cs:19-28 | fails exactly on an empty stack; otherwise it returns the most recently added pickup, pops it, lowers the total by its value and recomputes `targetReached` |
| GeoReceptacle.RemoveFailsIffEmpty | GeoBlade/Assets/Scripts/GeoReceptacle.cs:19-37 | `RemovePickup` fails exactly when `IsEmpty` holds; a receptacle is never empty after an add |
| GeoReceptacle.AddThenRemove | GeoBlade/Assets/Scripts/GeoReceptacle.cs:11-28 | for a receptacle whose flag agrees with its total (true after any add or remove), adding `p` and then removing returns `p` and restores the stack, the total and the flag |
| GeoReceptacle.RemoveThenAdd | GeoBlade/Assets/Scripts/GeoReceptacle.cs:11-28 | for a non-empty receptacle whose flag agrees with its total (true after any add or remove), removing and then adding back the removed pickup restores the receptacle |
| GeoReceptacle.AddKeepsTracks | GeoBlade/Assets/Scripts/GeoReceptacle.cs:11-14 | an add keeps total = start + sum of stacked values (mod 2^32), whatever the flag was, and leaves the flag agreeing with the total |
| GeoReceptacle.RemoveKeepsTracks | GeoBlade/Assets/Scripts/GeoReceptacle.cs:19-23 | a remove from a non-empty receptacle keeps total = start + sum of stacked values (mod 2^32), whatever the flag was, and leaves the flag agreeing with the total |
| GeoReceptacle.ApplyKeepsTracks | GeoBlade/Assets/Scripts/GeoReceptacle.cs:11-28 | every sequence of adds and removes that does not throw keeps the energy invariant, also for a receptacle whose flag starts out disagreeing (such as the default one with target 0 and the flag false); after at least one call the flag agrees with the total |
| GeoReceptacle.GetNextOpenPosition | GeoBlade/Assets/Scripts/GeoReceptacle.cs:30-33 | keeps x and z; with no pickups the next one goes exactly 1.5 above the receptacle, and never lower (with `NextOpenRisesByHalf`, the height is `(Count + 1) * 0.5 + 1` above it) |
| GeoReceptacle.IsEmpty | GeoBlade/Assets/Scripts/GeoReceptacle.cs:35-37 | a receptacle is empty exactly when popping its stack would throw |
| GeoReceptacle.NextOpenRisesByHalf | GeoBlade/Assets/Scripts/GeoReceptacle.cs:32 | each pickup added raises the next open height by exactly 0.5 |
| GeoReceptacle.NextOpenHeightIncreasing | GeoBlade/Assets/Scripts/GeoReceptacle.cs:32 | the next open height strictly increases with the number of stacked pickups |
| SecurityDroid.Update | GeoBlade/Assets/Scripts/SecurityDroidController.cs:32-78 | with no target nothing changes; the droid turns exactly when within chase radius; beyond the chase radius there is no action, fighting becomes false and the range flag and timer are kept; when not aggro there is no action and the range flag and timer are kept, and within chase radius the whole state, fighting flag included, is kept; when aggro within chase radius, fighting becomes true; when aggro and outside attack radius the droid moves and leaves attack range; inside attack radius the timer is first set to time + grace on entry, an attack of exactly attackDamage happens exactly when time reaches the timer, and after it the timer is time + cooldown |
| SecurityDroid.GracePeriodOnEntry | GeoBlade/Assets/Scripts/SecurityDroidController.cs:46-56 | on the first frame inside attack range, a positive grace period means no attack, and the timer becomes time + grace |
| SecurityDroid.StepKeepsGuard | GeoBlade/Assets/Scripts/SecurityDroidController.cs:46-60 | one frame keeps the attack-timer guard after an attack, and attacks only once the guard allows |
| SecurityDroid.RunKeepsGuard | GeoBlade/Assets/Scripts/SecurityDroidController.cs:32-78 | over a time-ordered run under the guard, no frame attacks before the guard allows |
| SecurityDroid.AttacksSpaced | GeoBlade/Assets/Scripts/SecurityDroidController.cs:46-60 | in a run whose times never go backwards, any two attacks are at least min(attackCooldown, attackGracePeriod) apart |
| SecurityDroid.DefaultAttacksSpaced | GeoBlade/Assets/Scripts/SecurityDroidController.cs:9-14 | with the default tuning (cooldown 3, grace period 1), two attacks of a time-ordered run are at least one second apart |

## Left out

- The `Instance` singleton, `Awake`, and the initial clearing of the text box: engine lifecycle with no decision logic.
- Logging (`Debug.Log`, `DisplayReceptacleStatus`): it has no effect on state.
- The waits for `PlayerManager.Instance` and its `player` (lines 156-161 of `DialogueManager.cs`): the model assumes the player manager is ready, so these loops never suspend. A cancel while waiting there is not modelled.
- Poll intervals (50, 100, 250 ms): the model keeps only whether a suspension happens, not how long it lasts.
- Concurrent sequences: a second `PlayDialogueSequence` that starts while the first is still suspended needs interleavings. Only the sequential path is modelled, where a sequence is still marked active after a dangling id.
- Callback timing: the end-of-event callback is assumed to fire while the flag is being waited on. An old callback that clears a later line's flag early is a race and is not modelled.
- DelayMillis: models `(int)(PostDelay * 1000)` as the floor of a positive real. It leaves out float rounding, and the overflow for huge delays that would make `Task.Delay` throw.
- `float` rounding and NaN: durations, delays, distances, times and positions are `real`.
- `CsvParser.Read` and `float.TryParse` internals: they are inputs (`Option<seq<Row>>` and a parser function).
- Speaker audio: the `Dialogue_Line` state is an event, and audio posts carry only the target object. `DialogueLine.Duration` is loaded but never read by the sequencer.
- Droid turning and movement: the turn angle, `SmoothDampAngle`, the move vector and `OnDrawGizmosSelected` are engine float math. The model keeps only whether the droid turns and whether it moves.
- Distance computation: distance enters `Update` as an input.
- Damage delivery: the damage goes to `PlayerStats` with an attack sound, represented by the `Attack` action.
- GetNextOpenPosition: the height is computed in `real`, not in 32-bit `float`.
- `ThirdPersonMovement.cs` and `DamageCollider.cs`: not part of this model.
