# Portfolio view-state: project exploration and loader progress

A Dafny model of the two pieces of state logic in a single-page portfolio site.

- `exploration.dfy`, module `Exploration`: the "Project Intel" progression of the `Home` page.
  Clicking a project card adds its title to the explored list, unless it is already there.
  Two gates are derived from that list.
  The flagship gate holds when all three flagship titles are explored; it reveals the two supporting cards.
  The mission gate holds when the list is as long as the five-title catalogue.
  A nudge is set when the visitor scrolls past the section before the mission is complete.
  It is shown only while the mission is incomplete, and clicking it clears it.
  The session is a value `View` advanced by `Step` for each event (card click, section left, nudge click), and `Run` folds a sequence of events.
  The class `Home` holds the same state in fields that its handler methods update in place.
  Each handler is proved to follow `Step`.
- `loader.dfy`, module `LoaderProgress`: the loading screen.
  On mount an interval starts.
  Each firing runs the progress updater.
  Below 100 the updater adds one.
  At or above 100 it stops the interval, hands the completion callback to a timeout, and keeps progress at 100.
  The effect cleanup stops the interval.
  Timers are discrete events (`IntervalTick`, `EffectCleanup`).
  `scheduled` counts how many times the completion callback was handed to the timeout.
  The class `Loader` has fields `progress`, `running` and `scheduled`, and methods `Tick` and `Cleanup` proved to follow `Step`.

The mission gate is a length comparison, not a membership test.
It means "every catalogue title is explored" only because the list has no duplicates and every click names a catalogue title.
`MissionCompleteMeansAllExplored` proves this from those two facts.
`LengthCheckNeedsCatalogueTitles` shows that any five different titles outside the catalogue would pass the check.
Under those same two facts, a complete mission already implies the flagship gate.
The UI's gating of the supporting cards is not needed for that implication.
The gating gives something stronger, proved in `GatedSession`: a supporting title is in the list only once every flagship title is.

## Model

| member | source | states |
|---|---|---|
| `Exploration.WithExplored` | app/page.tsx:95-99 | the clicked title is in the result; the result holds exactly the old titles plus it; the old list is an unchanged prefix; a present title leaves the list unchanged, a new one is appended at the end; no duplicate is introduced |
| `Exploration.Step` | app/page.tsx:95-99 | a click changes only the list, as `WithExplored`; leaving the section sets the nudge exactly when the mission is incomplete and keeps the list; a nudge click clears the flag; the list only grows |
| `Exploration.ExploreIdempotent` | app/page.tsx:95-99 | clicking the same card twice gives the same state as clicking it once |
| `Exploration.RunGrows` | app/page.tsx:97 | along any event sequence the old list stays a prefix of the new one: entries and their order never change |
| `Exploration.RunKeepsNoDuplicates` | app/page.tsx:95-99 | no event sequence introduces a duplicate into a duplicate-free list |
| `Exploration.RunKeepsOnlyCatalogue` | app/page.tsx:295-337 | if every click names a catalogue title, only catalogue titles are ever in the list |
| `Exploration.SessionHasNoDuplicates` | app/page.tsx:42-99 | from the empty list on page load, the list never holds a title twice, whatever the events |
| `Exploration.FlagshipCompleteStays` | app/page.tsx:97-101 | once every flagship title is explored, the flagship gate stays open under any later events |
| `Exploration.CatalogueSize` | app/page.tsx:52-93 | the catalogue holds five different titles |
| `Exploration.MissionCompleteMeansAllExplored` | app/page.tsx:93-102 | for a duplicate-free list of catalogue titles, its length is at most five, and length five holds iff every catalogue title is explored, iff the flagship gate holds and every supporting title is explored |
| `Exploration.CatalogueSession` | app/page.tsx:282-288 | from page load, with catalogue-only clicks: no duplicates, the "n/total" counter is at most total/total, the mission gate holds iff every catalogue title is explored, and it implies the flagship gate |
| `Exploration.ClicksAppend` | app/page.tsx:95-99 | clicking titles that are new and pairwise different appends exactly those titles, in click order, and leaves the nudge alone |
| `Exploration.FlagshipThenSupporting` | app/page.tsx:52-102 | exploring the three flagship cards opens the flagship gate but not the mission gate (count 3); then exploring the two supporting cards completes the mission |
| `Exploration.LengthCheckNeedsCatalogueTitles` | app/page.tsx:102 | clicks on any five different titles outside the catalogue pass the length check with no flagship explored, so the catalogue-only condition is needed |
| `Exploration.MissionCompleteStays` | app/page.tsx:359 | once the mission is complete in a catalogue-only session, no later event changes the list and the nudge is never visible again |
| `Exploration.GatedRunKeepsOrder` | app/page.tsx:311-337 | when supporting cards are clicked only while on screen, the list keeps holding only catalogue titles, and a supporting title is present only once the flagship gate holds |
| `Exploration.GatedSession` | app/page.tsx:101-102 | from page load, with supporting cards clicked only while on screen: supporting titles appear only after the flagship gate opens, and a complete mission implies the flagship gate |
| `Exploration.NudgeRules` | app/page.tsx:263-368 | leaving the section makes the nudge visible iff the mission is incomplete, and changes the flag only then; a nudge click hides it; a visible nudge means the mission is incomplete |
| `Exploration.Home.constructor` | app/page.tsx:41-43 | a session starts with an empty list and no nudge |
| `Exploration.Home.HandleExplore` | app/page.tsx:95-99 | the new state is `Step` of the old one for the click; the title is then explored; no duplicates is kept |
| `Exploration.Home.LeaveProjectSection` | app/page.tsx:263 | the new state is `Step` of the old one for leaving the section |
| `Exploration.Home.ClickNudge` | app/page.tsx:365-368 | the new state is `Step` of the old one for the nudge click: the flag is cleared |
| `Exploration.Home.FlagshipComplete` | app/page.tsx:101 | the loop over the flagship titles returns true iff every one of them is in the list |
| `Exploration.Home.MissionComplete` | app/page.tsx:102 | returns the length comparison; for a duplicate-free, catalogue-only list that is "every catalogue title explored" |
| `Exploration.Home.ExploredCount` | app/page.tsx:282 | returns the list length and the catalogue size; for a duplicate-free, catalogue-only list the first is at most the second |
| `Exploration.Home.NudgeShown` | app/page.tsx:359 | the nudge is shown iff the flag is set and the mission is incomplete, so never after completion |
| `LoaderProgress.Step` | components/Loader.tsx:10-20 | a stopped interval delivers nothing; cleanup only stops it; below 100 a tick adds one and schedules nothing; completion is scheduled exactly by a running tick at or above 100, which leaves progress 100 and the interval stopped; progress within [0, 100] stays there and never decreases |
| `LoaderProgress.RunKeepsInv` | components/Loader.tsx:11-18 | along any sequence of ticks and cleanups progress stays within [0, 100] and never decreases, completion is scheduled at most once, and never while the interval runs |
| `LoaderProgress.MountedSession` | components/Loader.tsx:7-20 | from mount, whatever the events, progress is within [0, 100] and completion is scheduled at most once |
| `LoaderProgress.StoppedIsFinal` | components/Loader.tsx:13 | once the interval is stopped, no later event changes the state |
| `LoaderProgress.CleanupIsFinal` | components/Loader.tsx:14-20 | after cleanup no event changes the state; cleanup keeps the progress and the number of scheduled completions, so it does not retract one |
| `LoaderProgress.TicksFrom` | components/Loader.tsx:11-17 | n ticks from running progress k give progress k + n while that is at most 100, and otherwise progress 100, the interval stopped and one completion scheduled |
| `LoaderProgress.CompletionOnTick101` | components/Loader.tsx:7-17 | from mount, n ticks give progress n for n up to 100 with nothing scheduled; the 101st tick schedules completion and stops the interval; later ticks change nothing |
| `LoaderProgress.Loader.constructor` | components/Loader.tsx:7-10 | mount: progress 0, interval running, nothing scheduled |
| `LoaderProgress.Loader.Tick` | components/Loader.tsx:11-18 | the new state is `Step` of the old one for a tick, and the invariant is kept |
| `LoaderProgress.Loader.Cleanup` | components/Loader.tsx:20 | the new state is `Step` of the old one for cleanup: the interval is stopped, progress and scheduled completions are kept |

## Left out

- Rendering, styling, icons, copy text and animations of the page and the loader are not modelled. This includes the project cards, which only display state and forward clicks.
- The section's leaving of the viewport is an abstract event. Viewport detection is not modelled.
- The emphasis effect driven by IntersectionObserver, the scroll indicator, the typewriter and the `scrollIntoView` call of the nudge click are browser I/O and are not modelled.
- The 30 ms interval and the 500 ms timeout are not modelled as durations; ticks and cleanup are discrete events.
- The firing of the scheduled timeout and what the completion callback then does (leaving the loading view) are not modelled. The model counts schedulings instead.
- The bar widths `(length/total)*100%` and `progress%` are floating point; the model keeps the integer counts.
- React scheduling is not modelled: a stale list captured by `handleExplore` racing with batched updates, double invocation of updaters in strict mode, and a re-run of the loader's effect if its callback changed identity. Each event sees the current state, one at a time.
- The catalogue entries' descriptions, stacks and links are left out; only the titles and the two tiers matter here.
