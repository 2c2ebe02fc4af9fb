# 6uos Hear — a Dafny model of the audiobook player's core

6uos Hear is a self-hosted audiobook player. A React front end plays books that
are single audio files or lists of tracks, and a Node back end imports folders
of audio files, renames them and scrapes metadata for them. This project models
the deterministic core of both halves as pure Dafny functions and proves
properties about them.

- **Playback engine** (`engine.dfy`, `timeline.dfy`). This is the reducer logic of
  `PlayerContext.tsx`. Every operation maps an `Engine` (the `PlayerState` record
  plus the refs the reducers use: listening history, the sleep guard and the
  session start) to a `Step`. A `Step` holds the next state and a list of
  commands: load a source, set the position, play or pause, notify, save
  progress, and queued automatic or manual seeks. The commands stand for the
  audio element and for deferred `setTimeout` calls.
- **Player helpers** (`fullscreen.dfy`, `controls.dfy`, `store.dfy`). These cover
  the A–B button, the progress and remaining-time readouts, the chapter label,
  the clock formats, the sleep countdown and double-tap detection. They also
  cover the store's second smart-rewind table.
- **Ingestion** (`renamer.dfy`, `scanner.dfy`, `scraper.dfy`, `filescanner.dfy`,
  `stream.dfy`, `filenames.dfy`). This part covers:
  - the file-name sanitiser and `{Key}` template expansion;
  - the rename plan with case-insensitive conflict detection;
  - the scanner's pure helpers (ignore patterns, extension filter, NFO reading,
    metadata precedence, track-number fallback, duration sum);
  - the metadata merge and source selection;
  - the browser-side folder import;
  - the stream route's transcode and Range decisions.
- **Library views** (`library.dfy`, `stats.dfy`, `collections.dfy`, `authors.dfy`,
  `tally.dfy`). These are the filters, aggregates, series membership toggle and
  per-author counts the pages derive from the library.
- **Demo data** (`fixtures.dfy`). These are the demo books of `constants.ts` as
  concrete walks through the engine.

Shared pieces:
- `types.dfy` holds the records of `types.ts`.
- `text.dfy` holds string helpers: ECMAScript white space (the `\s` class),
  ASCII case, trim, split, and decimal rendering and parsing.
- `seqs.dfy` holds filters, sums, and a stable descending sort standing for
  `Array.prototype.sort`.
- `wrappers.dfy` holds `Option`.

Times are `real` seconds. The wall clock is an `int` of milliseconds and is
passed in as a parameter. JavaScript truthiness is spelled out: a pause stamp of
`0` and an empty string count as absent.

Where the code and its written description differ, the model follows the code:
- `PlayerContext.tsx` uses strict `>` in the smart-rewind ladder, while the
  store uses `>=`. `Store.StoreVersusEngine` relates the two.
- The end-of-chapter watchdog also requires that the book has a non-empty
  chapter list and that a current book id is set.
- `mergeMetadata` takes the cover and the description from the first source of
  its priority list that answered at all, then reads that source's field. It
  does not go on to the next source that has a cover.

## Model

| member | source | states |
|---|---|---|
| Timeline.FindTrackByTime | context/PlayerContext.tsx:267-278 | Without a track list the answer is track 0 at offset 0. With a non-empty track list the answer always names a real track. |
| Timeline.FindTrackFirstWindow | context/PlayerContext.tsx:270-274 | When some track window [start, start + duration + 0.1) holds the time, the answer is the first such track, with the time minus that track's start as offset. |
| Timeline.FindTrackNoWindow | context/PlayerContext.tsx:277 | When no window holds the time, the answer is the last track at offset 0. |
| Timeline.FindTrackInRange | context/PlayerContext.tsx:267-278 | For a time inside the book: the track is real, the offset lies within that track plus the 0.1 s tolerance, and the track's start plus the offset gives the time back. |
| Timeline.MapBackendBook | context/PlayerContext.tsx:123-162 | One track per backend audio file, keeping its id and duration. The chapters are the ones derived from the tracks. The duration falls back to the summed track durations when the backend gives 0. The book starts unlistened and not liked. |
| Timeline.ChaptersFromTracksSpec | context/PlayerContext.tsx:133-142 | Chapter i starts at the summed durations of the tracks before it. It lasts as long as track i and is titled by the file name without extension or track number. |
| Timeline.ChaptersFromTracksContiguous | context/PlayerContext.tsx:133-142 | Derived chapters start at 0 and each one starts where the previous one ends. |
| Timeline.ChaptersEndAtTotal | context/PlayerContext.tsx:133-142 | The last derived chapter ends at the summed track durations. |
| Engine.ClampTime | context/PlayerContext.tsx:410 | The clamped time is never negative and never past a non-negative end. A time already inside the book is left alone. |
| Engine.RewindAfter | context/PlayerContext.tsx:288-292 | The rewind is one of 0, 10, 30 and 60 s. It is 60 exactly when the pause was longer than a day, and 0 exactly when it lasted at most five minutes. |
| Engine.ComputeSmartRewind | context/PlayerContext.tsx:286-293 | No rewind without a truthy pause stamp. Otherwise the rewind is the ladder value for the time since the stamp. |
| Engine.RewindMonotone | context/PlayerContext.tsx:286-293 | A longer pause never rewinds less. |
| Engine.PlayBook | context/PlayerContext.tsx:336-403 | An unknown id changes nothing. The loaded book only flips between playing and paused, with the matching Play or Pause command. Switching to another book makes it current and playing, with the book's duration, no pause stamp, a cleared A–B loop and a new session start; every other field of the engine is kept. Switching to a book with tracks sets the track that holds its progress and the progress itself, and emits load of that track, position at the offset and Play. A book with only an audio URL starts on track 0 at its progress and emits load of the URL, position at the progress and Play. A book with neither changes nothing and only raises the no-audio toast. |
| Engine.PlayBookResumes | context/PlayerContext.tsx:356-377 | A book with tracks resumes at its saved progress. It loads the track holding that progress, and the offset it sets maps back to the progress. |
| Engine.PlayBookSameTwice | context/PlayerContext.tsx:344-353 | Asking twice for the loaded book gives back the original state. |
| Engine.SeekInBook | context/PlayerContext.tsx:410-439 | A seek in a playable book lands on the time clamped into the book. It keeps the play state, history and session. It remembers the previous position for a manual seek and forgets it for an automatic one. Only the time, the track index and the remembered position change. The track is the one holding the clamped time when the book has tracks. A track change emits load and position, plus Play when playing. On the same track the position is set only when the audio is more than 0.5 s away. A single-file book sets the position to the clamped time. |
| Engine.SeekTrack | context/PlayerContext.tsx:413-418 | A seek in a book with tracks lands on a real track. In a single-file book the track index stays. |
| Engine.Seek | context/PlayerContext.tsx:405-443 | Without a current book that has tracks or an audio URL, nothing changes and nothing is emitted. Otherwise it lands on the time clamped into the current book and remembers the previous position for a manual seek only. Only the time, the track index (the track holding the clamped time) and the remembered position change. |
| Engine.UndoSeek | context/PlayerContext.tsx:465-472 | A remembered position is consumed and an automatic seek back to it is queued. Nothing else changes. Without a remembered position it is a no-op. |
| Engine.UndoAfterManualSeek | context/PlayerContext.tsx:405-472 | Undo after a manual seek queues an automatic seek back to the time before that seek. Carrying out that automatic seek leaves nothing to undo. |
| Engine.AutoSeekKeepsNothing | context/PlayerContext.tsx:431 | An automatic seek never creates a position to undo. |
| Engine.SeekThenTick | context/PlayerContext.tsx:405-443 | For a book whose chapters come from its tracks, a seek to t followed by a time update at the offset the seek chose gives t back as the global time. |
| Engine.TogglePlay | context/PlayerContext.tsx:445-461 | With no current book nothing changes. Otherwise playing flips. A pause stamps the clock and emits Pause. A resume clears the stamp and plays. It queues an automatic seek back to max(0, t − rewind) exactly when the smart rewind is positive. With a current book the only changes are the flipped play state and the pause stamp: set to now on pause, cleared on resume. |
| Engine.TogglePlayTwice | context/PlayerContext.tsx:445-461 | Pausing and then resuming gives back the playing state with no pause stamp. |
| Engine.ResumeAfterDay | context/PlayerContext.tsx:452-454 | Resuming after a pause of more than a day queues a 60 s rewind. |
| Engine.ActiveChapterOr0 | context/PlayerContext.tsx:504-505 | The index is the first chapter holding the time, or 0 when none holds it. It is always a valid index for a non-empty list. |
| Engine.SkipChapter | context/PlayerContext.tsx:499-526 | The state is never changed. Exactly one manual seek is queued when there is a current book with a chapter list, and nothing otherwise. The queued manual seek goes to the skip target of the current time in the current book's chapters. |
| Engine.SkipTarget | context/PlayerContext.tsx:504-520 | 'prev' goes to the previous chapter's start when under 3 s into a chapter after the first, and to the active chapter's start otherwise. 'next' goes to the following chapter's start, or to the book's end from the last chapter. A time outside every chapter counts as chapter 0. |
| Engine.SkipDirections | context/PlayerContext.tsx:507-520 | In chapters that tile the book, 'next' always jumps strictly forward and 'prev' never jumps forward. |
| Engine.SkipPrevRestarts | context/PlayerContext.tsx:509-513 | Three seconds or more into a chapter, 'prev' goes to that chapter's start. |
| Engine.HandleEnded | context/PlayerContext.tsx:650-685 | With no current book nothing happens. The history never grows past the larger of its old length and 1000. The sleep guard and session start are untouched. |
| Engine.EndedAdvances | context/PlayerContext.tsx:655-667 | Before the last track, the handler advances exactly one track and queues loading and playing of that track's URL. The clock and history are left alone. |
| Engine.EndedFinishes | context/PlayerContext.tsx:668-682 | On the last track, or without tracks, playback stops at the book's duration. Exactly one new history entry goes in front, for the current book, stamped now, with the session's elapsed seconds. Older entries follow, keeping at most 1000. |
| Engine.TrackStart | context/PlayerContext.tsx:617 | The result is the start time of the chapter at the track index, or 0 when that chapter is missing. |
| Engine.HandleTimeUpdate | context/PlayerContext.tsx:605-642 | With no current book nothing happens. Otherwise only the current time changes, and one progress save is queued for the book, track index and new time. A book without tracks takes the audio position as its global time. |
| Engine.TickGlobalTime | context/PlayerContext.tsx:615-619 | With chapters derived from the tracks, the global time is the summed duration of the earlier tracks plus the in-track position. |
| Engine.HandleError | context/PlayerContext.tsx:687-691 | An audio error stops playback and raises one toast. Nothing else changes. |
| Engine.WatchdogSync | context/PlayerContext.tsx:304-307 | Re-running the effect resets the guard when neither a timer nor end-of-chapter is armed. It keeps everything else. |
| Engine.WatchdogTick | context/PlayerContext.tsx:310-331 | A tick fires exactly when something is armed, the guard is down, and the deadline has passed or the chapter has ended. Firing pauses, disarms both, raises the guard and emits Pause and a toast. A tick that does not fire changes nothing. |
| Engine.WatchdogFiresOnce | context/PlayerContext.tsx:314-329 | Once fired, the watchdog cannot fire again on a later tick, even after the effect re-runs, until it is re-armed. |
| Engine.SetSleepTimer | context/PlayerContext.tsx:537-541 | The deadline is m minutes from now, or none for null or 0. The end-of-chapter flag is as given and the guard is reset. Nothing else changes. |
| Engine.SleepTimerFiresAtDeadline | context/PlayerContext.tsx:304-334 | A positive timer set at now fires on a tick exactly from its deadline on, and not a millisecond before. |
| Engine.SetABLoop | context/PlayerContext.tsx:530 | The loop takes the given markers and is always active. Nothing else changes. |
| Engine.ClearABLoop | context/PlayerContext.tsx:531 | Both markers are gone and the loop is inactive. Nothing else changes. |
| FullScreen.ABClickAsWritten | components/FullScreenPlayer.tsx:105-121 | As written: an active loop is cleared. Any other click leaves the loop active. With A set and a later time the loop A–t is opened; otherwise A is set to the time. |
| FullScreen.ABClickAsWrittenNeverOpens | components/FullScreenPlayer.tsx:105-121 | As written, clicks at 10 s and then 20 s end with no loop at all. |
| FullScreen.ABClickAsWrittenStaysReachable | components/FullScreenPlayer.tsx:105-121 | As written, from a cleared loop no sequence of clicks ever opens an A–B loop. |
| FullScreen.ABClick | components/FullScreenPlayer.tsx:105-121 | As intended: a loop is cleared only once both markers are set. With only A set, a later click opens A–t, and a click at or before A moves A. Nothing outside the loop changes. |
| FullScreen.ABClickWellFormed | components/FullScreenPlayer.tsx:105-121 | Clicks keep the markers well formed: B is only set together with an earlier A. |
| FullScreen.ABClickCycle | components/FullScreenPlayer.tsx:105-121 | From a cleared loop, clicks at a, then at a later b, then once more open the loop a–b and close it again, restoring the original state. |
| FullScreen.ProgressPercent | components/FullScreenPlayer.tsx:48 | The percentage is at most 100, and 0 without a duration. Within the book it is 100 · t / duration and never negative. |
| FullScreen.RemainingSeconds | components/FullScreenPlayer.tsx:49 | The result is the whole seconds left in the book. It is never negative, and 0 past the end or without a duration. |
| FullScreen.ReadoutsMonotone | components/FullScreenPlayer.tsx:48-49 | Listening further never lowers the percentage nor raises the remaining time. |
| FullScreen.ChapterLabel | components/FullScreenPlayer.tsx:50-52 | The label is '—' without a book, without chapters, or when no chapter holds the time. |
| FullScreen.ChapterLabelReadsBack | components/FullScreenPlayer.tsx:50-52 | A chapter label splits at '/' into two numbers: the 1-based position of the chapter holding the time and the chapter count. |
| FullScreen.Pad2 | components/FullScreenPlayer.tsx:54-59 | The padded field reads back as the number, in exactly two digits below 100. |
| FullScreen.FormatClockRoundTrip | components/FullScreenPlayer.tsx:54-59 | The h:mm:ss or m:ss rendering of a number of seconds parses back to that number. |
| FullScreen.SleepCountdown | components/FullScreenPlayer.tsx:67-77 | A countdown exists exactly while a deadline is set. It is the remaining time rounded up to whole seconds and never negative. |
| FullScreen.CountdownZeroAtDeadline | components/FullScreenPlayer.tsx:67-77 | The countdown shows 0 exactly when the watchdog's deadline has been reached. |
| FullScreen.DoubleTap | components/FullScreenPlayer.tsx:79-94 | The last-tap time is always updated. A seek happens exactly when the taps are less than 300 ms apart, 10 s back on the left and 10 s forward on the right. |
| FullScreen.DoubleTapLeftSeeks | components/FullScreenPlayer.tsx:79-94 | Two quick taps on the left seek back ten seconds, which the engine clamps at the start of the book. |
| Controls.ChapterTimeLeft | components/PlayerControls.tsx:26-32 | The time left is 0 without a book, without chapters, or outside every chapter. Inside a chapter it is the time to that chapter's end, positive and at most the chapter's length. |
| Controls.TimeLeftMatchesSkipNext | components/PlayerControls.tsx:26-32 | In chapters that tile the book, the time left plus the current time is exactly where 'next' jumps. |
| Controls.FormatTimeRoundTrip | components/PlayerControls.tsx:34-38 | For a non-negative time, the m:ss rendering parses back as its whole seconds. |
| Controls.FormatTimeNegative | components/PlayerControls.tsx:34-38 | Below zero the seconds field carries its own sign: −5 s renders as "-1:0-5". |
| Controls.SliderSpeed | components/PlayerControls.tsx:76-82 | Every slider position is a speed between 0.5 and 3.0 on the 0.1 grid. |
| Controls.SliderSteps | components/PlayerControls.tsx:76-82 | Neighbouring positions are 0.1 apart, from 0.5 to 3.0. `setSpeed` stores each of them unchanged. |
| Store.FirstMatch | frontend/src/stores/player.ts:28-33 | The result is the first rule whose threshold the pause reaches, or none when no threshold is reached. |
| Store.SmartRewindSeconds | frontend/src/stores/player.ts:28-33 | No rewind without a truthy pause stamp. Otherwise the rewind is the table value for the time since the stamp. |
| Store.StoreRewindLadder | frontend/src/stores/player.ts:9-13 | The table reads as 60 s from a day on, 30 s from an hour, 10 s from five minutes, and 0 below that, each bound inclusive. |
| Store.StoreRewindMonotone | frontend/src/stores/player.ts:9-13 | A longer pause never rewinds less. |
| Store.StoreVersusEngine | frontend/src/stores/player.ts:28-33 | On whole milliseconds, the store's table is the engine's strict ladder shifted by one millisecond. The two differ exactly at the three thresholds. |
| Store.StoreRewindsAtLeastEngine | frontend/src/stores/player.ts:28-33 | With the same pause stamp, the store rewinds at least as far as the engine. |
| Store.TogglePlayPause | frontend/src/stores/player.ts:40-47 | Playing flips. A pause stamps the time and a resume keeps the old stamp. Nothing else changes. |
| Store.PauseResumeKeepsStamp | frontend/src/stores/player.ts:40-47 | Pausing then resuming restores playing and leaves the pause stamp behind. |
| Store.ApplySmartRewind | frontend/src/stores/player.ts:49-51 | The position moves back by the rewind and stops at 0. Nothing else changes. |
| Store.RewindAfterLongPause | frontend/src/stores/player.ts:49-51 | After a pause of a day or more, the position moves back by at most one minute and never forward. |
| Store.EnableSleepMode | frontend/src/stores/player.ts:70-73 | The mode is as given. A timer is kept exactly when the mode is on and one is given. Nothing else changes. |
| Store.SleepOffForgets | frontend/src/stores/player.ts:70-73 | Turning sleep mode off forgets any timer, whatever was set before. |
| Renamer.CollapseSpaces | server/services/renamer.js:4 | The result has no run of white space. It keeps the first character, or turns leading white space into one space, and adds nothing but spaces. |
| Renamer.Sanitize | server/services/renamer.js:4 | The result contains none of the unsafe characters, no white-space run and no white space at either end, and is never longer than the input. |
| Renamer.SanitizeIdempotent | server/services/renamer.js:4 | Sanitising twice is sanitising once. |
| Renamer.SanitizeFixpoint | server/services/renamer.js:4 | A name that is already sanitised is left as it is. |
| Renamer.Substitute | server/services/renamer.js:6-12 | A placeholder's value is always sanitised. A missing key gives ''. A value that is already clean is used as it is. |
| Renamer.ExpandLiteral | server/services/renamer.js:6-12 | Template text before the first '{' is copied unchanged. |
| Renamer.ExpandPlaceholder | server/services/renamer.js:6-12 | A `{Key}` placeholder becomes the key's sanitised value, and expansion carries on after it. |
| Renamer.ExpandSlashes | server/services/renamer.js:6-12 | The expansion has exactly as many '/' as the template, so folder structure comes only from the template. |
| Renamer.TrackNumberOf | server/services/renamer.js:24 | The file's own non-zero track number wins. Otherwise the number is its 1-based position. |
| Renamer.TrackLabel | server/services/renamer.js:34 | The label is at least two characters and reads back as the number for a non-negative number. |
| Renamer.Resolve | server/services/renamer.js:40-42 | The target keeps the relative name as prefix and ends in ".Ext", or ".mp3" without an extension. A name already ending in ".Ext" is kept as it is. |
| Renamer.TargetShape | server/services/renamer.js:39-45 | Every target lies under the book folder and carries the file's extension, or ".mp3". |
| Renamer.Draft | server/services/renamer.js:23-53 | There is one item per file, in order, with the file's id, its path as source, its computed target, and a flag exactly when the target is the source. |
| Renamer.MarkConflicts | server/services/renamer.js:55-61 | The sweep with a set of lower-cased targets flags exactly what the reference marking flags. |
| Renamer.BuildRenamePlan | server/services/renamer.js:19-64 | There is one item per file, in order, with id, source and target. An item is flagged exactly when its target is its source or an earlier item has the same target up to ASCII case. |
| Renamer.MarkedConflictFree | server/services/renamer.js:55-61 | After marking, no unflagged item shares its target, up to case, with an earlier item. |
| Renamer.FirstOfDuplicateKept | server/services/renamer.js:55-61 | Of two files with the same target, the first is not flagged and the second is. |
| Renamer.ApplyRenamePlan | server/services/renamer.js:66-77 | The moves carried out are exactly the source and target pairs of the unflagged items. |
| Renamer.AppliedInPlanOrder | server/services/renamer.js:66-77 | There is one move per unflagged item, in plan order, from the item's source to its target. |
| Renamer.AppliedTargetsDistinct | server/services/renamer.js:66-77 | The moves of a conflict-free plan have pairwise different targets up to ASCII case. |
| Renamer.AppliedMovesDistinct | server/services/renamer.js:19-77 | Renaming by a built plan never moves two files onto one target, nor a file onto itself. |
| Renamer.ChainedMovesNotFlagged | server/services/renamer.js:58-75 | A plan 01→02, 02→03 is not flagged, and both moves are carried out in that order. |
| FileNames.StripExtensionOf | utils/fileScanner.ts:10 | A name "stem.ext" loses exactly ".ext". |
| FileNames.StripExtension | utils/fileScanner.ts:10 | The result is a prefix of the name. When anything is removed, it is a '.' and an extension body. |
| FileNames.StripTrackPrefixOf | utils/fileScanner.ts:11 | "07 - Title" becomes "Title": the number and every separator after it go. |
| FileNames.StripTrackPrefixNoDigit | utils/fileScanner.ts:11 | A name not starting with a digit keeps its start. |
| FileNames.StripTrackPrefix | utils/fileScanner.ts:11 | The result is a suffix of the name. |
| FileNames.RemoveBracketedLeavesNone | utils/fileScanner.ts:12 | After the global replace no bracketed segment is left. |
| FileNames.RemoveBracketedIdempotent | utils/fileScanner.ts:12 | Removing bracketed segments twice is removing them once. |
| FileNames.RemoveBracketed | utils/fileScanner.ts:12 | The result is never longer than the input. |
| FileNames.Basename | server/services/renamer.js:26 | The basename holds no '/' and ends the path. |
| FileNames.JoinPathBasename | server/services/renamer.js:45 | Joining a plain name under a folder gives a path whose basename is that name. |
| Scanner.SanitizeFilename | server/services/scanner.js:31-33 | The result holds none of the unsafe characters, has no white space at either end, and is never longer than the input. |
| Scanner.SanitizeFilenameFixpoint | server/services/scanner.js:31-33 | A name is left alone exactly when it has nothing to remove or trim. |
| Scanner.SanitizeFilenameIdempotent | server/services/scanner.js:31-33 | Sanitising twice is sanitising once. |
| Scanner.Patterns | server/services/scanner.js:66-72 | There is one trimmed pattern per comma-separated piece, in order. |
| Scanner.TrailingCommaIgnoresAll | server/services/scanner.js:66-72 | As written, a pattern list ending in ',' skips every folder. |
| Scanner.LeadingCommaIgnoresAll | server/services/scanner.js:66-72 | As written, a pattern list starting with ',' skips every folder. |
| Scanner.IgnoredAgrees | server/services/scanner.js:66-72 | Without empty patterns, the corrected test and the written one agree. |
| Scanner.TrailingCommaHarmless | server/services/scanner.js:66-72 | With the corrected test, "p," skips exactly the folders whose name contains the trimmed p. |
| Scanner.SkipFolder | server/services/scanner.js:66-73 | A dot-folder is always skipped. A folder skipped with the corrected ignore test is also skipped by the code as written. |
| Scanner.AudioCandidates | server/services/scanner.js:83 | The candidates are, in directory order, exactly the audio files of the folder. |
| Scanner.AudioByExtension | server/services/scanner.js:9 | A plain "stem.ext" is an audio file exactly when ".ext", lower-cased, is a listed extension. |
| Scanner.SidecarFile | server/services/scanner.js:39 | The sidecar is a listed file ending in ".nfo" or ".json", and there is none exactly when no file ends so. |
| Scanner.NfoField | server/services/scanner.js:48-53 | A field read from the NFO text is trimmed. It is absent exactly when the pattern matches nowhere. |
| Scanner.MatchAt | server/services/scanner.js:48-53 | A captured value never spans a line terminator. |
| Scanner.NfoFieldLeftmost | server/services/scanner.js:48-53 | The field is read from the leftmost position where the pattern matches. |
| Scanner.NfoReadsTitleLine | server/services/scanner.js:48-53 | A first line "Title: v" yields the title v, trimmed. |
| Scanner.NfoSubtitleQuirk | server/services/scanner.js:48-53 | The pattern is not anchored, so a "Subtitle: v" line also yields the title v. |
| Scanner.InitialMeta | server/services/scanner.js:99-123 | The title is the folder name, the sidecar title or the ID3 album. The author is "Unknown", the sidecar author or the ID3 artist. |
| Scanner.TitlePrecedence | server/services/scanner.js:99-123 | With NFO priority, a sidecar title other than the folder name wins. Without it, a present ID3 album replaces the folder name, and the folder name stays when there is none. |
| Scanner.AuthorPrecedence | server/services/scanner.js:99-123 | A sidecar author other than "Unknown" wins. Otherwise a present ID3 artist replaces "Unknown". |
| Scanner.TrackNumberFor | server/services/scanner.js:187-196 | A non-zero ID3 track number wins. Without one and without a leading digit, the number is 0. |
| Scanner.TrackNumberFromName | server/services/scanner.js:187-196 | Without a tag, a file named after its number gets that number back. |
| Scanner.ProcessTracks | server/services/scanner.js:175-225 | The book is dropped exactly when no probe succeeded. Otherwise its tracks are the successfully probed files, in order, and its duration is their sum. |
| Scanner.TotalBoundsTracks | server/services/scanner.js:180-223 | With non-negative probe durations, every track lasts between 0 and the book's total. |
| Scanner.ValidTracksFrom | server/services/scanner.js:180-212 | Every track comes from a file whose probe succeeded, with that probe's duration. |
| Scraper.ValidSources | server/services/scraper.js:129 | The answers kept are exactly the non-null ones. |
| Scraper.FirstPresentIndex | server/services/scraper.js:143-156 | The result is the first source of a priority list that answered at all, or none when none did. |
| Scraper.FirstPresent | server/services/scraper.js:143-156 | There is no answer exactly when none of the listed kinds answered. Otherwise the answer is that of the first listed kind that answered. |
| Scraper.FirstWithAuthor | server/services/scraper.js:159-162 | The result is an answer with a non-empty author, and there is none exactly when no answer has one. |
| Scraper.NoAnswersKeepLocal | server/services/scraper.js:126-131 | When no source answered, the local record comes back unchanged. |
| Scraper.CustomTitleAndDescriptionWin | server/services/scraper.js:134-156 | A non-empty custom title always wins. A non-empty custom description is never replaced later. Without a custom title the local one stays. |
| Scraper.CustomCoverWins | server/services/scraper.js:134-148 | A real custom cover is kept. A placeholder cover can still be replaced. |
| Scraper.UnknownAuthorFromFirstSource | server/services/scraper.js:159-162 | When the local author is unknown, the first answering source with an author decides, even over a custom author. |
| Scraper.KnownAuthorKept | server/services/scraper.js:159-162 | A known local author is kept unless a custom source supplies one. |
| Scraper.CoverFromFirstPresentOnly | server/services/scraper.js:143-148 | When iTunes answered without a cover, a Ximalaya cover is not used. |
| Scraper.MergeKeepsOtherFields | server/services/scraper.js:126-165 | The merge changes nothing but title, author, description and cover. |
| Scraper.MergeMetadata | server/services/scraper.js:126-131 | The fields other than the merged four are copied. With no answer at all the local record comes back unchanged. |
| Scraper.AfterCustom | server/services/scraper.js:134-140 | A non-empty custom value replaces the local one. Otherwise the local value stays. |
| Scraper.DescriptionFill | server/services/scraper.js:151-156 | A description still empty after the custom answer is taken from the first of Ximalaya, iTunes, Google Books that answered, when it has one. Otherwise the description stays. |
| Scraper.CoverFill | server/services/scraper.js:143-148 | A cover missing or a placeholder after the custom answer is taken from the first of iTunes, Ximalaya, Google Books that answered, when it has one. Otherwise the cover stays. |
| Scraper.EnabledSources | server/services/scraper.js:168-179 | The list is never empty. iTunes is asked when enabled or when nothing is enabled. Custom is asked exactly when a URL is set, and Open Library exactly when enabled. |
| Scraper.EnabledSourcesOrdered | server/services/scraper.js:168-179 | The sources are asked in the fixed order, each at most once. |
| Scraper.ScrapeDefaultsFail | server/services/scraper.js:167-189 | With nothing enabled and both default sources failing, the local record comes back unchanged. |
| Scraper.Labelled | server/services/scraper.js:32-116 | An answer carries the kind of the source that produced it. Nothing else in it changes. |
| Scraper.Scrape | server/services/scraper.js:167-189 | The fields other than the merged four are copied. |
| Scraper.ScrapeAllFail | server/services/scraper.js:181-189 | When every enabled source fails, the local record comes back unchanged. |
| Scraper.CustomAnswersLabelled | server/services/scraper.js:172-189 | Every answer labelled Custom comes from asking the custom source, so that source was enabled. |
| Scraper.ScrapeCustomAnswer | server/services/scraper.js:172-189 | The custom answer the merge sees is the custom fetch's outcome when a custom URL is set, and there is none otherwise. |
| Scraper.CustomTarget | server/services/scraper.js:23 | The URL keeps its prefix and ends with "q=" and the query. The joiner is "&" when the URL already has a '?', and '?' otherwise. |
| Scraper.CustomTargetOneQuery | server/services/scraper.js:23 | A URL without '?' gains exactly one, and one with a '?' gains none. |
| FileScanner.CleanTitle | utils/fileScanner.ts:8-14 | The title is trimmed and never longer than the file name. |
| FileScanner.CleanTitleOf | utils/fileScanner.ts:8-14 | "07 - Title.mp3" becomes "Title" for a plain, trimmed title without brackets. |
| FileScanner.CleanTitleDropsBrackets | utils/fileScanner.ts:12 | No bracketed segment survives in a title. |
| FileScanner.CollectedByExtension | utils/fileScanner.ts:42-45 | A name "stem.ext" is collected exactly when ext, lower-cased, is listed. |
| FileScanner.DotlessNameIsItsExtension | utils/fileScanner.ts:43 | Without a dot, the whole name counts as the extension, so a file named "MP3" is collected. |
| FileScanner.LocalExtensionsServerAccepted | utils/fileScanner.ts:5 | Every extension the browser import collects is one the server scanner accepts too. |
| FileScanner.ScanEntries | utils/fileScanner.ts:36-56 | Every collected file has a listed extension. |
| FileScanner.ScannedPathsBelow | utils/fileScanner.ts:36-56 | Every collected path lies below the walked directory and ends with "/name". |
| FileScanner.ScanFindsTopLevelFiles | utils/fileScanner.ts:40-48 | Every collected file directly in the directory is found under "path/name". |
| FileScanner.DirOf | utils/fileScanner.ts:65 | The group key is never empty. It is "/Root" or a prefix of the path. |
| FileScanner.DirOfJoined | utils/fileScanner.ts:65 | The group of a walked file is the directory it was found in. |
| FileScanner.GroupKeys | utils/fileScanner.ts:64-68 | The keys are pairwise different, and they are exactly the directories of the files. |
| FileScanner.GroupOf | utils/fileScanner.ts:64-68 | A group holds, in input order, exactly the files of its directory. |
| FileScanner.GroupsCover | utils/fileScanner.ts:64-68 | Every file lands in some group. |
| FileScanner.GroupsDisjoint | utils/fileScanner.ts:64-68 | No file lands in two groups. |
| FileScanner.GroupsNonEmpty | utils/fileScanner.ts:73 | No group is empty, so the empty-group guard never fires. |
| FileScanner.BuildChapters | utils/fileScanner.ts:87-98 | The chapter loop builds the reference chapter list, and its running total is the sum of the durations. |
| FileScanner.ImportedChaptersTile | utils/fileScanner.ts:87-105 | Imported chapters start at 0, are contiguous, and end at the book's duration. |
| FileScanner.BookTitle | utils/fileScanner.ts:80 | The title is the last segment of the directory, or the cleaned first file name when that segment is empty. |
| FileScanner.TitleIsDirectoryName | utils/fileScanner.ts:80 | A group walked from a named directory takes that directory's name as its title. |
| FileScanner.BuildBook | utils/fileScanner.ts:100-112 | The book's title and duration follow the rules above. Its chapters are the cleaned file names over the measured durations. The author, cover and progress are the defaults, and the description names the directory and the track count. |
| FileScanner.OrganizeFilesToBooks | utils/fileScanner.ts:60-116 | There is one book per directory, in order of first appearance, each built from that directory's group. |
| Stream.TranscodeByExtension | server/routes/stream.js:25-26 | Without the query flag, a file is transcoded exactly when its lower-cased extension is one of the four. With the flag it is always transcoded. |
| Stream.TranscodedAreAudio | server/routes/stream.js:26 | Every extension the route transcodes is one the scanner imports. |
| Stream.ParseInt | server/routes/stream.js:65-66 | The result is NaN exactly when no digit follows the leading white space and optional sign. |
| Stream.ParseIntOf | server/routes/stream.js:65-66 | A rendered number parses back to itself. |
| Stream.ParseIntNegative | server/routes/stream.js:65-66 | A minus sign negates the parsed number. |
| Stream.ParseRange | server/routes/stream.js:63-66 | A parsed range starts at the number before the first '-' of the header, after "bytes=" is dropped. |
| Stream.ParseRangeClosed | server/routes/stream.js:63-66 | "bytes=a-b" reads back as the range a..b. |
| Stream.ParseRangeOpen | server/routes/stream.js:63-66 | "bytes=a-" runs to the last byte of the file. |
| Stream.SuffixRangeUnread | server/routes/stream.js:63-66 | A suffix range "bytes=-n" (section 2.1 of RFC 7233) is not understood: its start is NaN. |
| Stream.ContentType | server/routes/stream.js:74 | Every content type is an "audio/" type. |
| Stream.ContentTypeOf | server/routes/stream.js:74 | The type is "audio/mpeg" for mp3, and "audio/" plus the extension otherwise. |
| Stream.Respond | server/routes/stream.js:17-91 | A missing record or a missing file gives the matching 404. A transcode is sent as audio/mpeg. A full reply has the file's size and is only sent without a Range header. A 206 reply follows a Range header and has a Content-Length of at least 1. The reply is 500 "Stream Error" exactly when a direct file gets a Range header whose bounds the file stream refuses: a bound that is NaN, a negative bound, or a start after the end. |
| Stream.PartialResponse | server/routes/stream.js:63-77 | A Range header whose bounds parse and are accepted by the file stream gets 206 on a direct file. Content-Range is "bytes first-last/size" (section 4.2 of RFC 7233), and the length is last − first + 1. |
| Stream.ReversedRangeFails | server/routes/stream.js:63-68 | A range whose end lies before its start makes the file stream throw, and the reply is 500. |
| Stream.OpenRangePastEndFails | server/routes/stream.js:63-68 | An open range starting at or after the end of the file is refused with 500. This includes "bytes=0-" on an empty file, whose end is −1. |
| Stream.SuffixRangeFails | server/routes/stream.js:63-68 | A suffix range "bytes=-n" starts at NaN and is refused with 500. |
| Stream.OversizeRangeOverstates | server/routes/stream.js:63-77 | An end past the file is not checked: the reply is 206 with the header's count as Content-Length, more than the bytes that remain. |
| Stream.RangedResponse | server/routes/stream.js:63-77 | A well-formed "bytes=a-b" inside the file gets 206 with the exact byte count, between 1 and the size. |
| Stream.OpenRangedResponse | server/routes/stream.js:63-77 | An open range "bytes=a-" covers the rest of the file. |
| Stream.FullResponse | server/routes/stream.js:79-86 | Without a Range header the whole file goes out with 200. |
| Stream.TranscodeIgnoresRange | server/routes/stream.js:29-56 | The query flag wins over any Range header, and the reply is a transcoded mp3 stream. |
| Library.FilteredBooksListed | pages/Library.tsx:161-177 | The listed books are an order-preserving subsequence of the library. They are exactly the books that pass search, hide-completed and tab filters. |
| Library.FilteredBooks | pages/Library.tsx:161-177 | The listed books are exactly the library books that pass search, hide-completed and the tab, and there are no more of them than books. |
| Library.EmptySearchListsAll | pages/Library.tsx:161-177 | An empty search on the "all" tab lists the whole library. |
| Library.SearchIgnoresQueryCase | pages/Library.tsx:162-165 | The search ignores the letter case of the query. |
| Library.InProgressNotCompleted | pages/Library.tsx:168-173 | Every book on the "in progress" tab is below 95 %, so hide-completed removes none of them. |
| Library.HideCompletedKeepsInProgress | pages/Library.tsx:168-173 | Hide-completed does not change the "in progress" tab. |
| Library.RecentBooksSpec | pages/Library.tsx:179-184 | The shelf holds at most five recent books of the library, newest first. It holds every recent book when there are fewer than five. |
| Library.RecentBooksNewest | pages/Library.tsx:179-184 | No recent book left off the shelf was added later than one on it. |
| Library.RecentBooks | pages/Library.tsx:179-184 | At most five books, each a recent book of the library, newest first. |
| Library.ProgressPercent | pages/Library.tsx:50 | The card shows 0 without a positive duration, and otherwise 100 · progress / duration, within 0..100 for a progress inside the book. |
| Library.NewBadgeExpires | pages/Library.tsx:51 | An expired "new" badge never comes back as time goes on. |
| Stats.FavoritesCount | pages/Stats.tsx:19 | The count is at most the library size, and 0 exactly when no book is liked. |
| Stats.CompletedCount | pages/Stats.tsx:22 | The count is at most the library size, and equals it exactly when every book is completed. |
| Stats.JsRound | pages/Stats.tsx:23 | The result is the nearest integer, with halves rounded up. |
| Stats.CompletionRate | pages/Stats.tsx:23 | The rate is 0 for an empty library, otherwise the completed share as a rounded percentage. It lies in 0..100. |
| Stats.AllCompletedRate | pages/Stats.tsx:22-23 | A fully completed library rates 100. |
| Stats.NoneCompletedRate | pages/Stats.tsx:22-23 | A library with nothing completed rates 0. |
| Stats.ProgressWithinTime | pages/Stats.tsx:20-21 | When no book is listened past its end, the total progress is at most the total time. |
| Stats.WeekWithinMonth | pages/Stats.tsx:26-34 | With no negative session, the week's total is between 0 and the month's, which is at most the all-time total. |
| Stats.RowsNames | pages/Stats.tsx:37-43 | Exactly the authors of library books that have a session get a row. |
| Stats.RowsTimes | pages/Stats.tsx:37-43 | Each row's time is that author's total listened time. |
| Stats.TopAuthorsSpec | pages/Stats.tsx:37-47 | At most three rows, non-increasing by time, one per author, each a credited author with their total. No author left out has more time than one shown. |
| Stats.TopAuthors | pages/Stats.tsx:37-47 | Three rows, or every row when there are fewer, most time first. |
| Stats.FormatDurationOf | pages/Stats.tsx:121-126 | A duration of h hours, m minutes and some seconds shows as "Hh Mm", or "Mmin" without hours. |
| Stats.Level | pages/Stats.tsx:128-134 | There are five heat levels, and level 0 exactly for no listening. |
| Stats.LevelMonotone | pages/Stats.tsx:128-134 | More listening never lowers the level. |
| Tally.Credit | pages/Stats.tsx:41 | Crediting a name appends a row only for a new name, and adds the time to that name's total and no other. |
| Tally.SumCredit | pages/Stats.tsx:41 | Crediting t adds t to the sum of all totals. |
| Collections.FindSeries | pages/Collections.tsx:82 | The result is the first series with the id, and none exactly when no series has it. |
| Collections.UpdateSeries | context/PlayerContext.tsx:564-570 | Every series with the id is replaced, and all others stay where they are. |
| Collections.UpdateThenFind | pages/Collections.tsx:92 | After an update of a listed series, looking up its id finds the new version. |
| Collections.Toggle | pages/Collections.tsx:85-91 | A listed id is removed everywhere and the other ids keep their order and counts. An absent id is appended at the end. |
| Collections.ToggleTwiceRestores | pages/Collections.tsx:85-91 | Adding a book and taking it out again restores the list exactly. |
| Collections.ToggleBookInSeriesSpec | pages/Collections.tsx:80-93 | Only the managed series changes, and only in its book list, which becomes the toggled list. Without a managed series in the list nothing changes. |
| Collections.ToggleBookInSeries | pages/Collections.tsx:80-93 | The list keeps its length and ids. Without a managed id every series stays, and series with another id always stay. |
| Collections.HandleSave | pages/Collections.tsx:41-63 | Nothing is saved without a title. A new series gets a "series_" id, no books and the given title and description. An edit keeps its fields. Both fall back to the default cover when none is set. |
| Collections.SaveKeepsCovers | pages/Collections.tsx:41-63 | Saving never brings a series without a cover into a list where all series have one. |
| Collections.DeleteSeries | context/PlayerContext.tsx:572-578 | The id is gone afterwards. The rest stay, in order. |
| Authors.AuthorsDataSpec | pages/Authors.tsx:14-20 | Every author of a book has exactly one card and nobody else has one. Each count is that author's number of books. The cards are in non-increasing count order, and the counts add up to the library size. |
| Authors.AuthorsData | pages/Authors.tsx:14-20 | The cards are a rearrangement of the per-author counts, most books first. |
| Authors.SelectedAuthorBooks | pages/Authors.tsx:23-26 | Nothing is shown without a selection. Otherwise the result is exactly the selected author's books, in library order. |
| Authors.FirstBookBy | pages/Authors.tsx:128 | The result is the first book by the author, and none exactly when the author has no book. |
| Authors.AuthorAvatar | pages/Authors.tsx:128 | An author card always has a picture. |
| Authors.AvatarPriority | pages/Authors.tsx:128 | Without a custom image, an author shows the cover of their first book when it has one. |
| Seqs.SortDescStable | pages/Authors.tsx:19 | The descending sort keeps elements with equal keys in their original order. |
| Seqs.TakeSortDescTop | pages/Stats.tsx:44-46 | Taking the first n of the descending sort keeps the largest keys: anything left out is no larger than anything kept. |
| Fixtures.DefaultBooksTile | constants.ts:16-116 | Every demo book's chapters are contiguous and end at the book's duration. |
| Fixtures.PlaySeekSkipScenario | constants.ts:16-33 | Playing "b1" loads its single file from the start. A manual seek to 603 s lands three seconds into chapter two. 'prev' then restarts chapter two, and 'next' goes to chapter three. |
| Fixtures.SkipPrevEarlyScenario | constants.ts:16-33 | One second into chapter two, 'prev' goes back to the start of chapter one. |
| Fixtures.EndOfBookScenario | constants.ts:16-33 | A seek past the end clamps to 3600 s, where no chapter holds the time, so an armed end-of-chapter watchdog pauses. 'ended' then records one history entry. |

## Left out

- **Audio element and ambience.** `src`, `currentTime`, `play`/`pause`, volume and rate sync (context/PlayerContext.tsx:705-710) and the ambience effect (230-262) are browser side effects. They appear only as emitted commands. The audio element is taken to be mounted.
- **Timer cadence.** The 700 ms watchdog interval, the 1 s progress debounce, the 30 s library refresh and toast expiry are not modelled as real time. The watchdog is a tick event and the save is a `SaveProgress` command.
- **Persistence and fetching.** `localStorage`, the library fetch and the remote/local progress merge (context/PlayerContext.tsx:177-196) are I/O and are not modelled. The same holds for the Favorites, AuthContext and ThemeContext storage.
- **Daily progress.** The counter fed by the time-update handler (context/PlayerContext.tsx:644-647) is clock bookkeeping outside the player state and is not modelled.
- **Calendar statistics.** The Stats streak, hourly buckets, heatmap calendar and last book depend on `Date` and time zones and are not modelled.
- **Stats.Level:** `getLevelColor` returns CSS class strings. The model returns the band index 0..4 instead of the class names.
- **Scanner I/O.** ffprobe, music-metadata, `fs` and the folder walk in scanner.js are left out. Probe outcomes are inputs to `Scanner.ProcessTracks`, and sidecar and ID3 values are inputs to `Scanner.InitialMeta`. The JSON sidecar branch is not modelled.
- **Scraper fetching.** The axios requests in scraper.js are not modelled. A scrape takes each source's outcome from a `fetch` parameter.
- **File moves.** `fs.renameSync` and `mkdirSync` in renamer.js are not modelled. `Renamer.ApplyRenamePlan` returns the moves it would carry out.
- **Renamer.AppliedMovesDistinct:** conflict marking compares targets only with each other. A target equal to a later item's source is not flagged, so sequential `renameSync` calls can overwrite a file before it is moved (`Renamer.ChainedMovesNotFlagged`). The model lists the moves and does not claim that carrying them out in order loses no file.
- **Path functions.** `path.join`, `extname` and `basename` are modelled without normalisation: no `..` resolution, repeated slashes kept, and trailing slashes not stripped.
- **Import sort and durations.** The `localeCompare` numeric sort in utils/fileScanner.ts:76 is taken as already applied to the input. `getAudioDuration` is a `measure` parameter. The random book id, `Date.now()` and object URLs are not modelled. The `fileType` field (utils/fileScanner.ts:111, the first file's extension upper-cased) is not modelled.
- **Grouping order.** The insertion order of `Object.entries` is modelled as order of first appearance. Keys that look like array indices come first in ascending order in JavaScript. Directory keys cannot be such keys, since they start with '/'. Author names in pages/Stats.tsx:44 can be ("1984"): there the model's order differs only among authors with equal time after the stable sort.
- **Unvalidated Range headers.** stream.js does not validate a Range header itself. Bounds that `createReadStream` refuses make it throw before the head is written, and the catch answers 500: a bound that is NaN (a suffix range included), a negative bound, or a start after the end. An end past the file still gets 206, with the header's count as Content-Length (`Stream.OversizeRangeOverstates`). The `?t=` transcode start, ffmpeg and the piping are I/O.
- **Numbers.** IEEE floating point is modelled as exact `real` arithmetic. `Math.floor`, `round` and `trunc` are written out. Lower-casing covers ASCII letters only.
- **Missing durations.** The `|| 0` for missing durations in Stats sums is not modelled: book durations are always present.
- **Collections detail view.** The detail view's `seriesBooks` list and duplicate series ids beyond the first match are display concerns and are not modelled. On the Authors page the overlay's image choice (pages/Authors.tsx:37) is not modelled separately from the card's.
- **Engine.HandleEnded:** the contract states only the frame and the history bound. The behaviour on each branch is stated by `Engine.EndedAdvances` and `Engine.EndedFinishes`.
- **Engine.SkipChapter:** 'prev' on an empty chapter list dereferences `chapters[0]` and is excluded by the precondition.
- **Scraper.MergeMetadata:** the contract states that fields other than the merged four are untouched, and that with no valid source the local metadata comes back unchanged. The per-field rules are stated by `Scraper.DescriptionFill`, `Scraper.CoverFill` and the other merge lemmas in the table.
- **Stream.ParseRange:** the contract states the first bound only. The last bound is stated by `Stream.ParseRangeClosed` and `Stream.ParseRangeOpen`.
- **Other files.** Server and database plumbing (server/index.js, server/database.js, backend/app), utils/scraper.ts (fetch wrappers) and the UI-only components and pages are not part of this model.

## Findings

| source | as written | input that shows it | evidently intended | confidence | as-written member | corrected member |
|---|---|---|---|---|---|---|
| components/FullScreenPlayer.tsx:105-121 | Setting A calls `setABLoop(t, null)`, which marks the loop active. The next click then takes the "active" branch and clears the loop, so the A–B branch is unreachable. | From a cleared loop, click at 10 s and then at 20 s: the loop ends cleared instead of 10–20. | A click clears only a loop that has both markers. With only A set, a later click sets B. | high (not executed) | FullScreen.ABClickAsWrittenNeverOpens | FullScreen.ABClickCycle |
| server/services/scanner.js:66-72 | The ignore patterns are split at ',' and trimmed but not filtered, so an empty pattern remains. `folderName.includes("")` is always true. | The ignore setting "a," (or ",a") skips every folder. | Empty patterns are dropped, so "a," skips only folders whose name contains "a". | high (not executed) | Scanner.TrailingCommaIgnoresAll | Scanner.TrailingCommaHarmless |
