# Portfolio site logic, modelled in Dafny

The portfolio site is a React application. Almost all of it is markup and static
content, but five small pieces of it hold logic, and this project models and
verifies those five:

- **Projects page** (`src/pages/Projects.tsx`, module `ProjectsPage` in `projects.dfy`).
  - The ten-entry project catalogue.
  - `getFilteredProjects`, which runs two stages in order:
    - the category stage, an exact match unless the tab is `'all'`;
    - the case-insensitive search over title, description, company, category and tech tags, which is skipped when the trimmed query is empty.
  - The category icon and colour switches.
  - The tech-badge highlight test.
- **Konami-code easter egg** (`src/pages/BeyondCode.tsx`, module `BeyondCode` in `konami.dfy`).
  - The key handler keeps the last ten keys.
  - It latches `showSecret` once the comma-joined buffer equals the comma-joined code.
  - It is modelled as a class, `KonamiDetector`, with a ghost history of every key pressed.
- **Statistics count-up** (`src/components/StatsConstellation.tsx`, module `StatsConstellation` in `count_up.dfy`).
  - The `value.replace(/\d+/g, …)` rewrite is modelled generically as `ReplaceRuns`, which takes any callback.
  - It is then instantiated with the count-up callback `ShowRun`.
  - The interval callback is the class `StatItem`.
- **Role planets** (`src/components/RolePlanets.tsx`, module `RolePlanets` in `role_planets.dfy`).
  - The single `flipped` id is toggled by clicks, in the class `FlipState`.
  - The `details` lookup has its `'Details'` and `[]` fallbacks.
- **Hero banner** (`src/components/Hero.tsx`, module `Hero` in `hero.dfy`).
  - The rotating role index `(prev + 1) % roles.length`, in the class `RoleBanner`.

Two support modules hold the JavaScript string and array built-ins the above rely on:

- `Strings` in `strings.dfy` covers `trim` with JavaScript's white-space set, ASCII `toLowerCase` and `includes`.
- `Sequences` in `sequences.dfy` covers `filter`, `slice(-n)`, order-preserving subsequences and distinctness.

Timers and key presses are explicit method calls: `Tick`, `HandleKeyPress` and `Click`.

## Model

| member | source | states |
|---|---|---|
| ProjectsPage.CategoryName | src/pages/Projects.tsx:26 | The string each value of the category union is written as; none of them is `"all"`. See AbsentByName, CategoryIcon and CategoryColor. |
| ProjectsPage.Catalogue | src/pages/Projects.tsx:32-123 | The ten projects in display order, each with its title, description, tags, category, route and company. See CatalogueDistinct, NoBackendProject, ChirpFoundByQa and ChirpMissedBySpaceQa. |
| ProjectsPage.InCategory | src/pages/Projects.tsx:136-138 | The category stage's test: the tab is `"all"` or names the project's category exactly. See EmptyCategoryShowsNothing and BackendTabIsEmpty. |
| ProjectsPage.MatchesQuery | src/pages/Projects.tsx:143-149 | The search stage's test: the lower-cased query occurs in the lower-cased title, description, company, category or one of the tech tags. See MatchesQuerySuffix and ChirpNeverMatchesSpaceQa. |
| ProjectsPage.FilterProjects | src/pages/Projects.tsx:132-153 | The result is an order-preserving subsequence of the input list. A project is in it iff it is in the list, passes the category test (tab `"all"` or the exact category name), and either the query is all white space or the lower-cased, untrimmed query occurs in its lower-cased title, description, company, category or one of its tech tags. |
| ProjectsPage.GetFilteredProjects | src/pages/Projects.tsx:132-155 | The same two facts, stated against the fixed ten-project catalogue. |
| ProjectsPage.BlankQueryKeepsCategoryStage | src/pages/Projects.tsx:133-152 | With a blank query, a list every entry of which passes the category stage comes back unchanged, in order. |
| ProjectsPage.AllTabBlankQueryShowsCatalogue | src/pages/Projects.tsx:132-153 | On the `'all'` tab with an empty or white-space-only query, the result is exactly the catalogue in its original order. |
| Sequences.Filter | src/pages/Projects.tsx:137 | `filter(keep)`: an order-preserving subsequence of the list that holds only accepted elements and every accepted element of the list, and is no longer than the list. The search stage at lines 143-149 uses it too. See FilterCount and FilterKeepsAll. |
| Sequences.FilterCount | src/pages/Projects.tsx:137 | `filter` keeps each accepted element exactly as often as it occurs and drops each rejected element entirely. |
| ProjectsPage.CatalogueDistinct | src/pages/Projects.tsx:32-123 | No two catalogue entries are equal. |
| ProjectsPage.FilteredHasNoDuplicates | src/pages/Projects.tsx:133-152 | The filtered list never repeats a project. |
| ProjectsPage.EmptyCategoryShowsNothing | src/pages/Projects.tsx:136-138 | If no project in the list has the active category, the result is empty, whatever the query. |
| ProjectsPage.NoBackendProject | src/pages/Projects.tsx:32-123 | No catalogue entry has the Backend category. |
| ProjectsPage.AbsentByName | src/pages/Projects.tsx:136-138 | A category absent from a list is also absent by name, because the four category names are distinct. |
| ProjectsPage.BackendTabIsEmpty | src/pages/Projects.tsx:136-138 | The `'Backend'` tab always shows an empty list. |
| ProjectsPage.MatchesQuerySuffix | src/pages/Projects.tsx:143-149 | A project the search matches with query `a + b` is also matched by `b`. |
| ProjectsPage.LeadingWhitespaceNeverWidens | src/pages/Projects.tsx:141-149 | Putting white space in front of a query never lets more projects through the search stage, because matching uses the untrimmed query. |
| ProjectsPage.MatchedIsShown | src/pages/Projects.tsx:141-149 | Under a query that is not blank, a project of the list that the query matches is shown on the `'all'` tab. |
| ProjectsPage.UnmatchedIsHidden | src/pages/Projects.tsx:141-149 | Under a query that is not blank, a project the query does not match is shown on no tab. |
| ProjectsPage.ChirpFoundByQa | src/pages/Projects.tsx:96-104 | On the `'all'` tab, the query `"qa"` shows the Chirp project. |
| ProjectsPage.ChirpMissedBySpaceQa | src/pages/Projects.tsx:96-104 | On the `'all'` tab, the query `" qa"` does not show the Chirp project, although the query is not blank. |
| ProjectsPage.ChirpNeverMatchesSpaceQa | src/pages/Projects.tsx:96-104 | None of Chirp's title, description, company, category or tags contains `" qa"` once lower-cased. |
| ProjectsPage.UntrimmedQueryExample | src/pages/Projects.tsx:141-148 | `" qa"` is not blank, so it is searched for. The tag "QA Documentation" contains `"qa"` but not `" qa"` once lower-cased. |
| ProjectsPage.TechHighlighted | src/pages/Projects.tsx:277 | The badge highlight test: the raw query is non-empty and the lower-cased tag contains the lower-cased raw query. See HighlightImpliesMatch, BlankQueryStillHighlights and BlankQuerySkipsSingleWordTag. |
| ProjectsPage.HighlightImpliesMatch | src/pages/Projects.tsx:277-279 | A highlighted tech badge implies that its project passes the search test for the lower-cased raw query. |
| ProjectsPage.BlankQueryStillHighlights | src/pages/Projects.tsx:277-279 | The query `" "` is blank, so it filters nothing, yet it highlights the tag "UI/UX Design". |
| ProjectsPage.BlankQuerySkipsSingleWordTag | src/pages/Projects.tsx:277-279 | The query `" "` does not highlight the tag "Figma". |
| ProjectsPage.CategoryIcon | src/pages/Projects.tsx:175-188 | Total over strings. Any string that is not one of the four category names gets the code icon. |
| ProjectsPage.IconsDistinguishCategories | src/pages/Projects.tsx:175-188 | Distinct categories get distinct icons. |
| ProjectsPage.CategoryColor | src/pages/Projects.tsx:190-203 | Total over strings. A string gets the default primary colours iff it is not one of the four category names. |
| ProjectsPage.ColorsDistinguishCategories | src/pages/Projects.tsx:190-203 | Distinct categories get distinct colour classes. |
| Sequences.LastN | src/pages/BeyondCode.tsx:22 | `slice(-n)` for a positive `n`: a result of length min(n, length of the list). For `n = 0` it gives `[]`, whereas `slice(-0)` returns the whole list; the handler only ever uses `n = 10`. See LastNIsSuffix, LastNWindow and LastNOfLastN. |
| Sequences.LastNIsSuffix | src/pages/BeyondCode.tsx:22 | `slice(-n)` keeps a suffix of the list. With the length `LastN` promises, that is the whole list when it is shorter than `n` and its last `n` elements otherwise. |
| Strings.Trim | src/pages/Projects.tsx:141 | `trim()` drops leading and trailing JavaScript white space. The result is a slice of the input, and it is empty or starts and ends with a non-white-space character. See TrimEmptyIffAllWhitespace. |
| Strings.ToLower | src/pages/Projects.tsx:142 | `toLowerCase()` keeps the length and lower-cases each character, ASCII letters only. See ToLowerAppend and LeadingWhitespaceNeverWidens. |
| Strings.Includes | src/pages/Projects.tsx:144-148 | `includes(q)`: `q` occurs at some position of the text; the empty query occurs everywhere. See IncludesSuffix and MatchesQuerySuffix. |
| Strings.TrimEmptyIffAllWhitespace | src/pages/Projects.tsx:141 | `trim()` yields `''` iff every character is JavaScript white space. |
| BeyondCode.KonamiSequence | src/pages/BeyondCode.tsx:18 | The ten key names of the code: up, up, down, down, left, right, left, right, `b`, `a`. See ShiftedLettersDoNotMatch and UnlockNeedsTenPresses. |
| BeyondCode.Join | src/pages/BeyondCode.tsx:25 | `join(',')`: the keys with a comma between each two. See SplitJoin, which recovers the list by splitting at commas. |
| BeyondCode.WindowMatches | src/pages/BeyondCode.tsx:18-25 | The handler's test: the comma-joined buffer equals the comma-joined code. See WindowMatchesIffCode and JoinedKeyWouldMatch. |
| BeyondCode.Unlocked | src/pages/BeyondCode.tsx:14-27 | The flag after a history of presses: some press left a buffer that passed the test. See UnlockedIffCodeSeen, UnlockNeedsTenPresses and UnlockedStaysUnlocked. |
| BeyondCode.KonamiDetector.constructor | src/pages/BeyondCode.tsx:13-14 | Starts with an empty buffer, the secret hidden and an empty history. |
| BeyondCode.KonamiDetector.HandleKeyPress | src/pages/BeyondCode.tsx:20-28 | The new buffer is the last ten of the old buffer plus the key. It holds at most ten keys and ends with the key pressed. `showSecret` becomes the old flag or'ed with the joined-buffer comparison. The invariant (buffer = last ten keys of the history, flag = `Unlocked(history)`) is kept. |
| BeyondCode.PressStep | src/pages/BeyondCode.tsx:20-27 | One press of the handler on a buffer of the last ten keys gives the last ten keys of the longer history, ending with the key, and the flag it sets is exactly `Unlocked` of the longer history. |
| BeyondCode.LastNOfLastN | src/pages/BeyondCode.tsx:22 | Truncating before appending loses nothing: the buffer is always the last min(n, 10) keys of the whole history. |
| BeyondCode.SplitJoin | src/pages/BeyondCode.tsx:25 | Splitting a comma-joined list at its commas gives back the pieces each element splits into. |
| BeyondCode.WindowMatchesIffCode | src/pages/BeyondCode.tsx:18-25 | For keys a keyboard can report, the `join(',')` comparison holds iff the buffer equals the code. |
| BeyondCode.LastWindowIsCode | src/pages/BeyondCode.tsx:22-25 | For keyboard key names, the buffer after a press passes the comparison iff the last ten presses are the code. |
| BeyondCode.LastTenAreCode | src/pages/BeyondCode.tsx:22 | The last ten keys of the history equal the code iff the code ends at the last press. |
| BeyondCode.UnlockedIffCodeSeen | src/pages/BeyondCode.tsx:18-27 | For keyboard key names, the secret is shown iff the code appears as ten consecutive presses somewhere in the history. |
| BeyondCode.UnlockNeedsTenPresses | src/pages/BeyondCode.tsx:22-25 | For keyboard key names, fewer than ten presses never show the secret. |
| BeyondCode.UnlockedStaysUnlocked | src/pages/BeyondCode.tsx:14-27 | Once shown, the secret stays shown after any further presses. |
| BeyondCode.ShiftedLettersDoNotMatch | src/pages/BeyondCode.tsx:18-25 | Matching is case-sensitive: `"B"`, `"A"` in place of `"b"`, `"a"` do not match. |
| BeyondCode.JoinedKeyWouldMatch | src/pages/BeyondCode.tsx:25 | Without the key-name hypothesis, the joined comparison is strictly weaker than list equality: a single key named like the whole joined code passes it. |
| StatsConstellation.Value | src/components/StatsConstellation.tsx:16 | `parseInt` of a digit run: the number the digits denote in base ten, below 10 to the power of the run's length. See ValueLeadingZeros and ValueInjective. |
| StatsConstellation.PadStart | src/components/StatsConstellation.tsx:16 | `padStart(len, '0')`: the string, with zeros in front up to length `len`. See PadStartIsZeros. |
| StatsConstellation.ShowRun | src/components/StatsConstellation.tsx:16 | The count-up callback: a digit run `m` becomes `min(parseInt(m), t)` in decimal, zero-padded to `m`'s width. See ShowRunFacts. |
| StatsConstellation.ReplaceRuns | src/components/StatsConstellation.tsx:16 | `replace(/\d+/g, f)`: each maximal digit run is replaced by `f` of it, and other characters are copied. See ReplaceRunsLength, ReplaceKeepsShape, ReplaceAppend and RunReplace. |
| StatsConstellation.NatToString | src/components/StatsConstellation.tsx:16 | `toString()` is the shortest decimal numeral. It is made of digits, has no leading zero and denotes `n`. |
| StatsConstellation.PadStartIsZeros | src/components/StatsConstellation.tsx:16 | `padStart(len, '0')` only puts zeros in front. |
| StatsConstellation.ValueLeadingZeros | src/components/StatsConstellation.tsx:16 | Leading zeros do not change the number a digit string denotes. |
| StatsConstellation.ValueInjective | src/components/StatsConstellation.tsx:16 | Two equal-width digit strings that denote the same number are equal. |
| StatsConstellation.ShowRunFacts | src/components/StatsConstellation.tsx:16 | The callback turns a digit run `m` into a digit string of `m`'s width that denotes min(parseInt(m), t). |
| StatsConstellation.ReplaceRunsLength | src/components/StatsConstellation.tsx:16 | With a callback that keeps each run's width, `replace(/\d+/g, f)` keeps the string's length. |
| StatsConstellation.ReplaceKeepsShape | src/components/StatsConstellation.tsx:16 | With such a callback, the result has digits exactly where the input has them, and every non-digit character is copied in place. |
| StatsConstellation.ReplaceAppend | src/components/StatsConstellation.tsx:16 | At a boundary that does not split a digit run, replacing in a concatenation equals concatenating the replacements. |
| StatsConstellation.RunReplace | src/components/StatsConstellation.tsx:16 | Each maximal digit run `m` is replaced, in place, by `f(m)`. |
| StatsConstellation.RewriteRuns | src/components/StatsConstellation.tsx:16 | The count-up text keeps the value's length, has digits exactly where the value has them, and copies every non-digit character (such as `'+'`). |
| StatsConstellation.RunRewrite | src/components/StatsConstellation.tsx:16 | Each maximal digit run of the value shows, in place, min(run, t) zero-padded to the run's width. |
| StatsConstellation.Display | src/components/StatsConstellation.tsx:6-17 | Shows `"00"` before the first tick and the value itself from tick 10 on. From tick 1 on it has the value's length and copies the value's non-digit characters. |
| StatsConstellation.DisplayedRun | src/components/StatsConstellation.tsx:10-16 | From tick 1 on, each maximal run shows a digit string of its width. While counting, it denotes min(run, t); from tick 10 it is the run itself; it never exceeds the run's number. |
| StatsConstellation.SettledRunShowsTarget | src/components/StatsConstellation.tsx:16 | A run whose number is at most t already shows its final digits, leading zeros included. |
| StatsConstellation.ShownNumber | src/components/StatsConstellation.tsx:10-16 | A shown number is at most the target's number, and before tick 10 it is also at most t. |
| StatsConstellation.DisplayMonotone | src/components/StatsConstellation.tsx:10-16 | From tick 1 on, the number a run shows never decreases. |
| StatsConstellation.FirstTickExample | src/components/StatsConstellation.tsx:16 | `"200+"` shows `"001+"` at tick 1. |
| StatsConstellation.NinthTickExample | src/components/StatsConstellation.tsx:16 | `"200+"` shows `"009+"` at tick 9. |
| StatsConstellation.SettledExamples | src/components/StatsConstellation.tsx:11-16 | `"200+"` shows itself at tick 10, and `"05+"` already shows `"05+"` at tick 5. |
| StatsConstellation.StatItem.constructor | src/components/StatsConstellation.tsx:6-8 | A new card shows `"00"` at tick 0, with the interval running. |
| StatsConstellation.StatItem.Tick | src/components/StatsConstellation.tsx:9-18 | A running card advances t and shows `Display(value, t)`. At tick 10 it shows the value and stops. A stopped card changes nothing. |
| RolePlanets.Planets | src/components/RolePlanets.tsx:15-40 | The three planets, with ids design, dev and strategy, in display order. See PlanetsShowAtMostOneFlipped. |
| RolePlanets.Details | src/components/RolePlanets.tsx:43-68 | The `details` record: one titled entry with three bullets per planet id. See EveryPlanetHasDetails. |
| RolePlanets.DetailsTitle | src/components/RolePlanets.tsx:123 | The heading is never empty. It is the entry's title when the entry exists and its title is non-empty, and `"Details"` otherwise. |
| RolePlanets.DetailsBullets | src/components/RolePlanets.tsx:125 | The bullets are the entry's own list when the id has an entry, and the `[]` fallback only when it has none. |
| RolePlanets.NextFlipped | src/components/RolePlanets.tsx:87 | A click makes card `id` the flipped card iff it was not flipped, and leaves no card flipped iff it was. |
| RolePlanets.FlippedCount | src/components/RolePlanets.tsx:85 | How many of the given cards pass the per-card `flipped === id` test. See AtMostOneFlipped and PlanetsShowAtMostOneFlipped. |
| RolePlanets.AtMostOneFlipped | src/components/RolePlanets.tsx:85-87 | With distinct ids, at most one card is shown flipped, and exactly one iff the state names one of them. |
| RolePlanets.PlanetsShowAtMostOneFlipped | src/components/RolePlanets.tsx:15-42 | The three planets never show two cards flipped. |
| RolePlanets.ClickSequenceClears | src/components/RolePlanets.tsx:87 | Clicks A, B, B leave nothing flipped, not A. |
| RolePlanets.EveryPlanetHasDetails | src/components/RolePlanets.tsx:15-68 | Every planet id has a details entry with a non-empty title and three bullets, so neither fallback is shown for them. |
| RolePlanets.FlipState.constructor | src/components/RolePlanets.tsx:42 | Initially no card is flipped. |
| RolePlanets.FlipState.Click | src/components/RolePlanets.tsx:87 | The new state is `NextFlipped(old state, id)`, with both iff's stated. |
| Hero.Roles | src/components/Hero.tsx:8-13 | The four roles in display order. See EveryRoleShown and RoleBanner.ShownRole. |
| Hero.RoleAfter | src/components/Hero.tsx:7-17 | The role index after any number of ticks is below 4. |
| Hero.RoleAfterIsRemainder | src/components/Hero.tsx:7-17 | After k ticks the index is k mod 4. |
| Hero.RoleCycle | src/components/Hero.tsx:17 | The index returns to its value after exactly four ticks. |
| Hero.EveryRoleShown | src/components/Hero.tsx:8-17 | The first four ticks show roles 0, 1, 2, 3 in list order. |
| Hero.RoleBanner.constructor | src/components/Hero.tsx:7 | The index starts at 0. |
| Hero.RoleBanner.Tick | src/components/Hero.tsx:16-17 | The index becomes (old + 1) mod 4, stays below 4, and equals `RoleAfter(ticks)`. |
| Hero.RoleBanner.ShownRole | src/components/Hero.tsx:75 | `roles[currentRole]` is always one of the four roles. |

## Left out

- JSX, Tailwind classes, the scroll-reveal IntersectionObserver, images and icons as components. Icons are an enumeration and colours are their class strings.
- `setInterval`, `setTimeout`, `clearInterval` and the keydown listener registration. Ticks, clicks and key presses are method calls. Re-running the count-up effect when `value` changes is not modelled: a `StatItem` has a fixed value.
- ProjectsPage.FilterProjects: `toLowerCase` is modelled on ASCII letters only. JavaScript also folds other Unicode letters; the catalogue text and the queries that matter here are ASCII.
- StatsConstellation.Value: `parseInt` is modelled as exact on unbounded integers, while JavaScript rounds runs above 2^53. The display is exact all the same: on ticks 1 to 9 a rounded number is still at least 10, so `Math.min(parseInt(m), t)` is `t` either way, and from tick 10 the value is shown without parsing.
- BeyondCode.WindowMatchesIffCode, BeyondCode.LastWindowIsCode, BeyondCode.UnlockedIffCodeSeen, BeyondCode.UnlockNeedsTenPresses: assume that every key name is either `","` or contains no comma, as with the `key` values keyboards report. JoinedKeyWouldMatch shows the comparison is weaker without this assumption.
- The cursor-following bug in `src/pages/BeyondCode.tsx` (34-45), the games in `src/pages/ProcessPage.tsx`, `src/pages/LandingGame.tsx` and `src/components/TechStackRings.tsx`, the contact forms, and the static case-study, CV and About pages. They rely on floating point, randomness, canvas drawing or simulated sending, or hold no logic.
