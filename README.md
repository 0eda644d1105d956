# KUJIKUJI lottery — verified model

KUJIKUJI is a browser lottery. Users enter a list of characters on an input page. A 3D drawing page then places one robot per unselected character on the floor and draws them one by one, without replacement, when the GO button is pressed. This project is a Dafny model of the application's logic. It leaves out the rendering.

- `placement.dfy` (module `Placement`) covers the placement planner of `js/utils.js`:
  - the square spiral of grid cells;
  - the squared-distance collision test;
  - the jittered, collision-avoiding layout with its fallback to the cell centre.
- `utils.dfy` (module `Utils`) covers the smaller helpers of `js/utils.js`:
  - Fisher–Yates shuffling (also `shuffleArray` in `js/storage.js`);
  - the random index;
  - `hexToRgb`, `clamp` and the integer part of `gridPosition`.
- `storage.dfy` (module `Storage`) covers the character store of `js/storage.js`. The localStorage entry is the field `saved` of class `Store`; its operations load the record, change it and save it.
- `lottery.dfy` (module `Lottery`) covers the drawing session of `js/main.js` (class `Session`):
  - the draw pool `kujiList`;
  - `modelGroup`, given as the character index of each loaded model;
  - the button status (1 GO, 2 RETURN, 3 Try Again);
  - the one-second click guard;
  - the writes to the store.
- `i18n.dfy` (module `I18n`) covers the translation lookup `t(key)` over a JSON value tree and the language state of class `I18n` (class `Translator`).
- `wrappers.dfy` holds `Option`, which stands for `null`/`undefined`.

Inputs the code reads from its environment become parameters:

- `Math.random()` is a stream `nat -> real` with values in [0, 1), or a single value `u`.
- `new Date()` is a parameter `now`.
- Generated ids and avatar seeds are parameters.
- The fetched translations file and the `lang` URL parameter are parameters.

### How the draw page behaves

In `js/main.js`, `loadModel(idx)` pushes a model onto `modelGroup` and `idx` onto `kujiList` when that model's load completes (js/main.js:572-573). Both arrays therefore follow load-completion order. A drawn value `v` is a character index, yet `selectedKuji` uses it as a position in `modelGroup` (js/main.js:360). The model keeps this:

- drawing `v` brings forward, and saves as selected, the character `group[v]`;
- while some loads are still missing, `v` can be `>= |modelGroup|`. The handler then throws after the splice (`Fault`).

`AllLoaded` proves that once every model has loaded, every character index is in `modelGroup` and no draw can fault.

The GSAP animation callbacks are taken as running to completion before the next handled click. The button is hidden meanwhile (js/main.js:357), and the click guard spaces clicks by one second.

A page with nothing left to draw is never opened as a finished session. The code leaves for the input page as soon as no character is unselected (js/main.js:36-42), so `Lottery.Open` yields no session then.

A draw that throws leaves the button hidden (js/main.js:357). Only the completion callbacks of camera tweens show it again (js/main.js:111, 337, 480): the opening tween has already finished by the first click, and the throw comes before the draw starts its own tween. So the page takes no further clicks. The model records this in `halted`.

## Model

| member | source | states |
|---|---|---|
| Placement.SpiralIndexInjective | js/utils.js:201-221 | Two cells at the same position of the spiral walk are the same cell. |
| Placement.StepAdvancesIndex | js/utils.js:206-217 | One step of the walk, with its corner test, moves along a unit axis vector to the cell with the next spiral position. It also arrives with the heading that cell expects. |
| Placement.SpiralDeterministic | js/utils.js:201-221 | Any two cell sequences laid along the spiral with the same length are equal. |
| Placement.SpiralPrefixFacts | js/utils.js:196-199 | A sequence laid along the spiral repeats no cell and begins (0,0), (1,0), (1,1), (0,1), (-1,1), (-1,0), as the doc comment lists. |
| Placement.GenerateSpiralCoordinates | js/utils.js:201-221 | Returns exactly `count` cells, cell j at spiral position j. Consecutive cells are one unit step apart, no cell repeats, and the first cells are the documented ones. |
| Placement.SqDistance | js/utils.js:47-51 | The squared distance is never negative and is zero from a point to itself. |
| Placement.CheckCollision | js/utils.js:60-67 | True exactly when some existing position is strictly closer than `minDistance`. |
| Placement.CandidateJittered | js/utils.js:146-157 | With Math.random() in [0, 1), every candidate lies within ±RANDOM_OFFSET_RANGE of its cell centre on both axes. |
| Placement.ForcedIffAllCollide | js/utils.js:145-178 | After the attempt loop, a cell falls back to its centre exactly when each of its `maxAttempts` candidates collides. |
| Placement.FirstCellPlaced | js/utils.js:145-175 | With nothing placed yet and at least one attempt allowed, the first candidate is accepted. |
| Placement.TryCell | js/utils.js:142-175 | Draws candidates in stream order until one is clear of every existing position, at most `maxAttempts` of them. It accepts exactly the first clear candidate, and every earlier one collided. It places nothing exactly when all `maxAttempts` candidates collide, or none is allowed. It reports how many it drew. The stream advances by two values per candidate, plus one for an accepted candidate's facing. |
| Placement.PlaceCell | js/utils.js:139-188 | One cell's pass keeps the layout state. The accepted candidate or the centre is appended. The cell joins `forced` exactly when nothing was accepted. The next cell's attempts start where this cell's ended in the stream. |
| Placement.GeneratePositions | js/utils.js:133-193 | Returns one position per spiral cell, `count` in all. Cell i's attempts start where cell i-1's ended in the stream, and it went through the attempt loop of `TryCell` against the positions before it. Cell i is forced exactly when all `maxAttempts` of its candidates collide with an earlier position; it then holds exactly its centre. Any other cell holds its first clear candidate, inside the cell and at least `minDistance` from every earlier position. With no attempts allowed every cell is forced; otherwise the first cell never is. |
| Utils.RandomIndex | js/utils.js:26 | `Math.floor(u * n)` for u in [0,1) is a valid index below n. |
| Utils.Shuffle | js/utils.js:23-30 | The result has the input's length and is a permutation of it (same multiset). |
| Utils.ParseIntIndex | js/main.js:200 | `parseInt(Math.random() * n)` agrees with the floor index whenever the product is at least 1e-6. |
| Utils.ParseIntIndexOverruns | js/main.js:200 | For Math.random() = 2^-24 and one element left, parseInt reads the index 5 (past the end), while the floor index is 0. |
| Utils.Clamp | js/utils.js:265-267 | `Math.min(Math.max(value, min), max)`. With min <= max, a value in range is kept, one below is raised to `min` and one above is lowered to `max`. With min > max the result is `max`. |
| Utils.TruncMod | js/utils.js:113 | JavaScript's `%`: the remainder has the dividend's sign, is smaller in size than the divisor, and differs from the dividend by a multiple of the divisor. |
| Utils.GridSlotOf | js/utils.js:111-113 | For a non-negative index, row and col are the row-major decomposition: col < columns and index == row * columns + col. |
| Utils.GridSlotRoundTrip | js/utils.js:111-113 | The slot of `row * columns + col` is (row, col). |
| Utils.HexToRgb | js/utils.js:372-379 | Yields a colour exactly when the text is six hex digits of either case with an optional leading '#'. Every component is then below 256. |
| Utils.HexRoundTrip | js/utils.js:372-379 | Every byte colour, printed as `#rrggbb`, parses back to itself. |
| Utils.HexCanonical | js/utils.js:372-379 | Parsing is case-insensitive: a parsed colour prints back as the input's digits in lower case. |
| Storage.TrimStart | js/storage.js:70 | The result is a suffix of the input. Everything cut off is white space, and the result does not start with white space. |
| Storage.TrimEnd | js/storage.js:70 | The result is a prefix of the input. Everything cut off is white space, and the result does not end with white space. |
| Storage.BlankIffAllSpace | js/storage.js:94 | A name trims to nothing exactly when every character of it is white space. |
| Storage.TrimIdempotent | js/storage.js:70 | Trimming a trimmed name changes nothing. |
| Storage.FirstIndex | js/storage.js:137 | `find` by id: the index found holds the id and no earlier character does. When nothing is found, no character holds the id. |
| Storage.UnselectedCharacters | js/storage.js:183-186 | Holds exactly the stored characters whose `selected` is false. |
| Storage.SelectedCharacters | js/storage.js:192-195 | Holds exactly the stored characters whose `selected` is true. |
| Storage.FiltersKeepOrder | js/storage.js:183-195 | Both filters keep stored order: filtering a concatenation concatenates the filtered parts. |
| Storage.FiltersPartition | js/storage.js:183-195 | Every character is in exactly one filter: the two lengths add up to the total. |
| Storage.RoundedPercent | js/storage.js:321 | `Math.round(selected / total * 100)` is the whole number p within one half of 100·selected/total, a tie going up: (2p-1)·total <= 200·selected < (2p+1)·total. It lies in 0..100, is 0 when nothing is selected and 100 when everything is. |
| Storage.GetStatistics | js/storage.js:312-325 | `total` is the number of characters. `selected` and `remaining` are the sizes of the two filters and add up to `total`. `isComplete` holds exactly when `remaining == 0 && total > 0`. `percentage` is in 0..100, is 0 for an empty store and is 100 when complete; otherwise it is `selected / total` as a percentage rounded to the nearest whole number, ties up. |
| Storage.UnmarkedIsFresh | js/storage.js:238-242 | After clearing every selection the roster has the same length, ids and names in the same order. Nothing is selected, and every character is remaining. |
| Storage.MarkMovesOne | js/storage.js:206-208 | Marking one unselected character moves exactly one character from the unselected filter to the selected one. |
| Storage.SelectMarksOne | js/storage.js:202-222 | A successful selection marks exactly the first character with the id. Every other character stays as it was, one `{id, name, selectedAt}` record is appended to the log, and `remaining` drops by one. |
| Storage.NonBlankNames | js/storage.js:89-111 | The kept names are never empty and are no more than the names given. |
| Storage.NonBlankNamesMembers | js/storage.js:91-99 | A name is kept exactly when it is not empty and is the trim of some given name. |
| Storage.NonBlankNamesAppend | js/storage.js:91-99 | Names are kept one at a time, in order: keeping from two lists joined is keeping from each and joining the results. |
| Storage.Store.SaveData | js/storage.js:47-57 | The stored record becomes the given one, stamped with `updatedAt = now`. |
| Storage.Store.ClearAll | js/storage.js:257-266 | The entry is removed, so every later load yields the default record. Returns true. |
| Storage.Store.AddCharacter | js/storage.js:65-82 | Appends exactly one unselected character with the trimmed name (blank or not) and returns it. The given avatar seed is used unless it is null or empty, in which case a generated one is. |
| Storage.Store.AddCharacters | js/storage.js:89-111 | Appends one unselected character per name whose trim is not empty, with the trimmed name, in order. Returns exactly the appended characters and saves even when none is added. |
| Storage.Store.UpdateCharacter | js/storage.js:135-148 | Applies the patch to the first character with the id, changing nothing else, saves and returns it. Returns null and saves nothing when no character has the id. |
| Storage.Store.DeleteCharacter | js/storage.js:155-168 | Removes exactly the first character with the id, saves and returns true. Returns false and saves nothing when no character has the id. |
| Storage.Store.SelectCharacter | js/storage.js:202-226 | An unselected character with the id is marked selected at `now`, logged and saved, and returned. An unknown or already selected id returns null, and localStorage is unchanged. |
| Storage.Store.ResetSelections | js/storage.js:233-251 | With `keepCharacters`, every character is kept in order with `selected` false and `selectedAt` null, the log is emptied and the record saved. Without it, the store is cleared as by `clearAll`. |
| Lottery.IndexOf | js/main.js:352 | `indexOf`: the position found holds the value and no earlier one does; -1 means the value is absent. |
| Lottery.IndexOfDistinct | js/main.js:352 | In a pool without repeats, `indexOf` of the element at k is k. |
| Lottery.Pigeonhole | js/main.js:166-168 | n distinct indices below n are all the indices below n. |
| Lottery.Session.constructor | js/main.js:188-190 | A session starts with empty `modelGroup` and `kujiList`, status 1, no current index, time stamp 0 and the button not halted. |
| Lottery.Session.ModelLoaded | js/main.js:572-573 | A completed load appends the same index to `modelGroup` and `kujiList`. The pool/removed/group accounting and the status invariant are preserved. |
| Lottery.Session.LoadModels | js/main.js:166-168 | Loads completing in a given order append exactly that order to both `modelGroup` and `kujiList`. |
| Lottery.Session.UpdateStatistics | js/main.js:230-242 | Status becomes 3 exactly when the store reports `isComplete`; otherwise it is unchanged. |
| Lottery.Session.Splice | js/main.js:352-355 | Removes exactly the first occurrence of the drawn value from `kujiList`, which then no longer holds it, and records it as drawn; `modelGroup` and the status are unchanged. |
| Lottery.Session.SelectedKuji | js/main.js:350-368 | Removes exactly the first occurrence of the drawn value from the pool, which then no longer holds it. With a model at that position, it ends on status 2 and saves the model's character as selected when it has an id; with none, it faults and halts the button, changing neither the status nor the store. |
| Lottery.Session.ReturnView | js/main.js:336-341 | Back to status 1, or to 3 when the store reports `isComplete`; nothing else changes. |
| Lottery.Session.Draw | js/main.js:198-202 | On an empty pool it faults with no current index and changes nothing else. Otherwise it draws the pool member at `floor(u * length)`, splices it out and records it. With a model at that position it shows it, ends on status 2 and saves the selection when the character has an id. Without one it faults on status 1 with the store untouched. The button is halted exactly when it faults. |
| Lottery.Session.Click | js/main.js:192-214 | A click on a halted button, or within 1000 ms of the last handled one, changes nothing. In status 1 it draws a pool member, splices it out and writes the selection, ending on status 2; an empty pool or a missing model faults and halts the button without touching the time stamp. In status 2 it returns to status 1 or 3. In status 3 it resets all selections, keeping the characters and the status. Only a draw changes the drawn list. |
| Lottery.DrawnOnce | js/main.js:352-355 | No value is drawn twice, and nothing drawn is still in the pool. |
| Lottery.AllLoaded | js/main.js:166-168 | Once every model has loaded, every character index is in `modelGroup`, and it is in `kujiList` before the first draw. Every pool value is then a valid `modelGroup` position, so no draw faults. Each index appears once, by the session invariant. |
| Lottery.Open | js/main.js:36-48 | Without unselected characters there is no session. Otherwise the session holds a permutation of the unselected characters, empty pools and status 1. Position i is on spiral cell i: at its centre, or inside the cell and at least 3 (the minimum distance the page passes, with 50 attempts per cell) from every earlier position. |
| I18n.Split | js/i18n.js:62 | `key.split('.')` yields at least one segment and no segment contains '.'. |
| I18n.JoinSplit | js/i18n.js:62 | Joining the segments with '.' gives back the key. |
| I18n.SplitJoin | js/i18n.js:62 | Segments without dots, joined and split again, are the same segments. |
| I18n.ResolveAppend | js/i18n.js:65-72 | Walking a path is walking its first part, then the rest from where that ends. |
| I18n.MissingStops | js/i18n.js:66-71 | Once the walk reaches nothing, a falsy value or a value without the next member, no continuation resolves. |
| I18n.ResolveChain | js/i18n.js:65-72 | A walk through truthy values, each holding the next as its member under the next key, ends at its last value. |
| I18n.TranslateNested | js/i18n.js:61-75 | `t` of a dotted key returns the value reached from the language's translations by following its segments member by member, each value on the way being truthy. |
| I18n.TranslateMissing | js/i18n.js:66-71 | `t` returns the key itself when a segment is missing, an intermediate value is falsy or the language has no entry. |
| I18n.ChooseLanguage | js/i18n.js:28-34 | The choice is always supported: the URL language if supported, else the saved one if supported, else "en". |
| I18n.Translator.constructor | js/i18n.js:7-12 | Starts in English, not ready, with no translations. |
| I18n.Translator.Init | js/i18n.js:17-42 | Does nothing once ready. Otherwise it takes the fetched translations (the empty en/ja/ko fallback on failure) and the chosen language, and becomes ready. The language stays supported. |
| I18n.Translator.SetLanguage | js/i18n.js:80-91 | A supported language becomes current and is remembered as the preferred one. An unsupported one changes nothing. |

## Left out

- Rendering is left out: Three.js scene, models, lights, camera, GSAP tweens, text meshes, particles (js/particles.js) and animation. The model keeps only the state that the click handler reads and writes.
- The facing angle of each placed character is left out. It is computed with `Math.atan2` (js/utils.js:162-163, 185). Its Math.random() sample is still consumed, so the stream stays aligned.
- Floating-point arithmetic is left out. Distances, offsets and percentages use exact reals and integers. `Storage.RoundedPercent` does not model the double rounding of `selected / total * 100` at exact halves.
- `Placement.SqDistance`: does not state that the squared distance is zero only for equal positions.
- `Math.random()` and `new Date()` become parameters. Shuffling, placement and each draw take their random values from separate streams, rather than one shared generator.
- `generateId`, `generateSeed`, `getAvatarUrl`, `formatDate`, `generateCharacters`, `exportData`/`importData` and settings are left out. They produce strings from the clock or the random generator, or they are I/O; generated ids and seeds are parameters.
- localStorage and JSON become a field holding the parsed record. The model assumes the stored record is well formed, with both arrays present; the fallback for a missing `selectedCharacters` (js/storage.js:211-213) is therefore not modelled. A failing `setItem` (storage quota) is not modelled either: every save succeeds. Callers ignore the result of `saveData`.
- Timestamps are integers rather than ISO strings.
- The defaults of `generatePositions` (POSITION_CONFIG.MIN_DISTANCE 8 and MAX_ATTEMPTS 50, js/utils.js:13-14, 133) are left out. The page's only call passes both arguments (js/main.js:48), as `Lottery.PLACE_MIN_DISTANCE` and `Lottery.PLACE_MAX_ATTEMPTS`.
- `gridPosition`: only the integer row/column part is modelled. The centring offsets and the spacing are left out.
- `Utils.GridSlotOf`: requires at least one column. With 0 columns the code divides by zero and yields non-finite coordinates (Infinity or NaN), which have no counterpart here.
- `Lottery.Session.Draw`: takes the index with Math.floor (`Utils.RandomIndex`), the corrected form listed under Findings. The code as written can read an index past the end for products below 1e-6. `kujiList.indexOf(undefined)` is then -1, so nothing is spliced (js/main.js:352-355); the button is hidden and `modelGroup[undefined].status` throws with the pool intact. That run is not modelled.
- `Lottery.Session.Click`: draws through `Draw` and so shares its Math.floor index; the overrun fault of the code as written is not modelled.
- Status 3 reloads the page (js/main.js:210). The model returns `Reloaded` and does not model the fresh page, which is a new `Lottery.Open`.
- `Lottery.Session.SelectedKuji` omits the `updateStatistics()` call after the save (js/main.js:366). It only refreshes the counters on screen, which are not modelled; any status it sets is replaced by status 2 (js/main.js:484).
- The asynchronous order of GSAP callbacks is left out. In the model a draw ends on status 2 directly; in the page the status becomes 2 only when the camera tween completes (js/main.js:484), while the button is hidden.
- `I18n` lookups on prototype members (e.g. `"toString"`) are left out: only own members, array and string indices and `length` are modelled. Dafny characters are Unicode scalar values, not UTF-16 code units.
- The top-level translations value is taken to be an object.
- `applyTranslations` (DOM), `getCurrentLanguage` and `getSupportedLanguages` are left out.
- js/input.js, the input page's DOM handling, is left out. The store calls it makes are modelled as follows. `addCharacters` (js/input.js:71), `addCharacter` (:94), `updateCharacter` (:150), `deleteCharacter` (:175) and `clearAll` (:208) are `Storage.Store` members. `getAllCharacters` (:106) is `Storage.Store.Characters`. `getStatistics` (:184, :200) is `Storage.GetStatistics` applied to `Storage.Store.Characters`. Only `generateCharacters` (:56), `getAvatarUrl` (:125) and `exportData` (:216) are left out, as listed above.
- `Utils.ParseIntIndex`: models parseInt's exponent-notation reading for products below 1e-6 through `LeadingDigit`, with a fuel of 400 decimal shifts. That is enough for every double above 1e-400, which covers every double, since the smallest one is about 5e-324.

## Findings

| source | as written | input that shows it | evidently intended | confidence | as-written member | corrected member |
|---|---|---|---|---|---|---|
| js/main.js:200 | `kujiList[parseInt(Math.random() * kujiList.length)]`: `parseInt` first turns the number into a string, and for products below 1e-6 that string is in exponent notation, so only its leading digit is read. | Math.random() = 2^-24 (5.96e-8) with one element left: the product prints as "5.960464477539063e-8" and parseInt reads 5, so `kujiList[5]` is undefined and the click throws. | `Math.floor(Math.random() * kujiList.length)`, an index below the pool size. | not executed | Utils.ParseIntIndexOverruns | Utils.RandomIndex |
