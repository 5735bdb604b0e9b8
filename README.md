# Gallery creature sounds, modelled in Dafny

A model of the sound system of the museum gallery (`public/main.js`). The
system loads a creature catalog from a list of endpoints, stopping at the
first that answers. It preloads one audio clip per creature id and takes a
snapshot of the positions of seven artwork entities. When the player presses
KeyX inside the museum, it plays the clip of the nearest artwork within 7
units. Only one creature clip plays at a time: starting a clip stops the
previous one.

Files and modules:

- `js_values.dfy` (`JsValues`): `Option`, JavaScript primitive values (numbers are the safe integers, at most 2^53 - 1 in magnitude, the range in which every integer is exact), truthiness, and `String(v)` with the decimal reading that inverts it on numbers.
- `catalog.dfy` (`Catalog`): catalog records, endpoint outcomes, the first-success rule (`FirstOk`) and the key-to-sound table (`SoundTable`) that the audio map is rebuilt from.
- `exhibits.dfy` (`Exhibits`): integer positions, the fixed artwork table, the snapshot (`DisplaysFromScene`, a `map` followed by `filter(Boolean)`), the nearest-exhibit scan (`ScanIndex` over squared distances, `NearestIndex` and `Nearest` over displays) and the player position lookup. Squaring is `Sq`, a sum of odd numbers, proved equal to `n * n`. `DistanceOrder` shows that comparing the real distances `distanceTo` returns decides the same as comparing their squares.
- `gallery_sound.dfy` (`GallerySound`): classes `AudioHandle` (a clip, with its paused flag, playback position and whether `onended` is set) and `SoundSystem` (the `state` object). Every function of the source that updates `state` is a method of `SoundSystem`. `Valid()` is the controller's invariant: every clip the system made is paused except the current one, the current one is playing with its listener set, and no two keys share a clip. `LionScenario` is a client that walks through an end-to-end scenario: one record `artwork1`/`lion.mp3`, its exhibit 4 units away, and a KeyX press that makes that clip current.

Inputs from outside are parameters:

- The network is a sequence of endpoint outcomes (`Fail` or `Ok(payload)`), one per endpoint in order.
- The scene is a map from element id to element (an element has an optional position). The `#rig` element is an optional element.
- A key press is `KeyDown(code, sceneRig)`.
- The end of a clip is `Ended(h)`.
- Outside writes to `state.insideMuseum` and `state.playerRig` are `SetInsideMuseum` and `SetPlayerRig`.

Behaviour of the code worth noting:

- The key listener is installed only at the end of `init`, after the catalog fetch and the snapshot (`public/main.js:18-22`). A key press before that does nothing at all. The model has `keyHandlerInstalled` for this.
- When every endpoint fails, `creatures` and the audio map keep their previous values; they are not set to empty (`public/main.js:34-46`). At startup the previous value is `[]`.
- `playCreatureSound` with an unknown id has already stopped the previous clip before it returns, so the earlier clip stays stopped (`public/main.js:146-151`).
- A rig set through `state.playerRig` replaces `#rig` even when it has no position. In that case the player position is missing; the lookup does not fall back to `#rig` (`public/main.js:106-113`).

Each display built by the snapshot always has a position. So the guard `if (!disp || !disp.position) return;` in the scan (`public/main.js:122`) never fires on them. That is why the model's displays carry a position that is always there.

## Model

| member | source | states |
|---|---|---|
| `JsValues.ToJsString` | public/main.js:55 | `String(v)` of a string is the string itself; a number becomes a non-empty string that starts with a digit, or with `-` when negative |
| `JsValues.DecimalRoundTrip` | public/main.js:55 | the digits written for a natural number read back as that number |
| `JsValues.ToJsStringNumInjective` | public/main.js:55 | two numeric ids get the same audio-map key only when they are the same number |
| `Catalog.SoundTable` | public/main.js:50-56 | every sound stored in the rebuilt table is truthy |
| `Catalog.SoundTableKeys` | public/main.js:51-55 | a key is in the table exactly when some record is an object with a truthy `id` and a truthy `sound` and `String(id)` is that key; every other record is skipped |
| `Catalog.SoundTableLastWins` | public/main.js:55 | when several valid records share a key, the sound of the last of them is the one stored |
| `Catalog.FirstOk` | public/main.js:34-45 | the index picked is in range and names an endpoint whose attempt succeeded |
| `Catalog.FirstOkIsFirst` | public/main.js:34-46 | every endpoint before the picked one failed, and nothing is picked exactly when every endpoint failed |
| `Exhibits.Compact` | public/main.js:79 | `filter(Boolean)` gives at most as many entries as it is given |
| `Exhibits.SomeIndex` | public/main.js:70-79 | the i-th kept entry comes from a position of the mapped list that holds exactly that entry |
| `Exhibits.RankOf` | public/main.js:70-79 | every kept position of the mapped list lands in the result, at a place that `SomeIndex` maps back to it |
| `Exhibits.SomeIndexIncreasing` | public/main.js:70-79 | the filter keeps the order of the entries it keeps |
| `Exhibits.DisplaysFromScene` | public/main.js:61-79 | the snapshot has at most 7 entries, the size of the fixed table |
| `Exhibits.SnapshotFaithful` | public/main.js:61-79 | the snapshot keeps the table's order; it keeps exactly the rows whose element exists and has a position; each kept entry has the row's creature id and that element's position |
| `Exhibits.SqIsSquare` | public/main.js:124 | the linear definition of squaring used for distances is `n * n` |
| `Exhibits.DistanceOrder` | public/main.js:124-125 | for non-negative reals whose squares are the naturals `u` and `v` (a `distanceTo` result and its squared distance, or the radius and its square), `<` and `<=` between the reals agree with `<` and `<=` between `u` and `v`; so `dist < nearestDist && dist <= maxDistance` on distances decides as the model's comparison of squared distances does |
| `Exhibits.ScanIndex` | public/main.js:118-129 | the index the scan over squared distances ends on is in range of the list and within the squared radius |
| `Exhibits.LeastAtUnique` | public/main.js:125 | at most one entry is within the limit, no larger than any entry within it, and strictly smaller than every such entry before it; so the answer is unique on ties |
| `Exhibits.ScanIndexCorrect` | public/main.js:118-129 | the scan finds nothing exactly when no entry is within the limit; otherwise it finds an entry within the limit that no entry within the limit is strictly smaller than, the earliest such entry on ties |
| `Exhibits.NearestIndex` | public/main.js:116-131 | the display index found is in range of the list and within the radius |
| `Exhibits.Nearest` | public/main.js:116-131 | the display found is a member of the list and within the radius |
| `Exhibits.NearestIsNearest` | public/main.js:117-130 | `Nearest` gives nothing exactly when no display is within the radius; otherwise it gives the display that is nearest within the radius, the earliest on ties |
| `Exhibits.NearestIndexCorrect` | public/main.js:117-130 | the search finds nothing exactly when no display is within the radius (the empty list included); otherwise it finds an in-range display that no in-range display is strictly closer than, and the earliest such one on ties |
| `Exhibits.NearestAmongFour` | public/main.js:121-129 | with exhibits at distances 9, 3, 7 and 5 and radius 7, the one at 3 is found |
| `Exhibits.NearestTieGoesToEarlier` | public/main.js:125 | of two exhibits at the same distance, the earlier is found |
| `Exhibits.PlayerPosition` | public/main.js:105-114 | a rig set from outside decides the position alone, even when it has none; without one, the scene's `#rig` decides it; with no rig at all there is no position |
| `GallerySound.AudioHandle.constructor` | public/main.js:53-54 | a new clip carries its record's sound, is paused at position 0, and has no `onended` listener |
| `GallerySound.SoundSystem.HandleFor` | public/main.js:147-148 | the clip looked up for a key exists exactly when the key is in the audio map, and is then the clip stored under that key |
| `GallerySound.SoundSystem.NearestToPlayer` | public/main.js:95-97 | no exhibit is chosen exactly when there is no player position or no display is within 7 units of it; otherwise the chosen exhibit is the nearest display within 7 units, the earliest on ties |
| `GallerySound.SoundSystem.constructor` | public/main.js:9-16 | the initial state: no creatures, an empty audio map, no displays, no current clip, no outside rig, inside the museum, and no key listener yet |
| `GallerySound.SoundSystem.SetInsideMuseum` | public/main.js:15 | an outside write of the flag keeps the invariant |
| `GallerySound.SoundSystem.SetPlayerRig` | public/main.js:14 | an outside write of the rig keeps the invariant |
| `GallerySound.SoundSystem.Init` | public/main.js:18-22 | fetch, then snapshot, then listen for keys: the catalog and sounds as fetched, each rebuilt clip new, paused at position 0 and without a listener; the displays as snapshotted; the current clip untouched |
| `GallerySound.SoundSystem.FetchCreaturesWithFallback` | public/main.js:24-47 | the number of fetches is one more than the index of the first success, or all of them when none succeeds; on success the catalog is that body (or `[]` if the body is not an array) and the audio map is rebuilt from it, each clip new, paused at position 0 and without a listener; when all fail, nothing in the state changes |
| `GallerySound.SoundSystem.LoadDisplaySounds` | public/main.js:49-57 | the old map is discarded; the keys of the new map are exactly those of `SoundTable(creatures)`; each key has a new, paused clip at position 0 for that key's table sound; the invariant holds |
| `GallerySound.SoundSystem.PopulateDisplaysFromScene` | public/main.js:59-80 | the displays become the snapshot of the scene, and nothing else changes |
| `GallerySound.SoundSystem.FindNearestExhibit` | public/main.js:116-131 | the loop returns exactly the display `Nearest` specifies, on every list of displays, the empty list included |
| `GallerySound.SoundSystem.StopCurrentCreatureSound` | public/main.js:133-143 | afterwards there is no current clip; a previous clip is paused and rewound to 0; with no current clip nothing changes |
| `GallerySound.SoundSystem.PlayCreatureSound` | public/main.js:145-160 | the previous clip is stopped and rewound, keeping its listener, unless it is the clip being restarted; the current clip becomes the clip for `String(id)`, or none when that key has none; a started clip plays from 0 with its listener set; every other clip the system made is unchanged; at most one clip is audible |
| `GallerySound.SoundSystem.Ended` | public/main.js:155-159 | the finished clip is paused; the current clip is cleared only if it is the finished clip, so a late completion of a replaced clip leaves the newer one current |
| `GallerySound.SoundSystem.HandlePlayNearestCreatureSound` | public/main.js:94-103 | with a player position and an exhibit within 7 units, the nearest exhibit's clip is played as `PlayCreatureSound` says, the replaced clip keeps its listener, and no other clip changes; otherwise no clip and no handle changes |
| `GallerySound.SoundSystem.KeyDown` | public/main.js:82-92 | the nearest exhibit's clip is played when all of these hold: the listener is installed, the code is `KeyX`, `insideMuseum` is truthy, a player position exists and an exhibit is within 7 units; the replaced clip is stopped and keeps its listener, and no clip other than the previous and the new one changes; otherwise the current clip and every clip are unchanged |

## Left out

- The DOM and the scene (`document.getElementById`, `querySelector("#rig")`, `object3D`, `addEventListener`, `DOMContentLoaded`): they are replaced by a map of elements with optional positions, an optional rig element and explicit key and ended events.
- The network (`fetch`, `res.ok`, `res.json`, `window.location.origin`) and the building of the three endpoint URLs: they are replaced by a sequence of outcomes, one per endpoint. A failed status and a body that does not parse are both `Fail`.
- Real audio behaviour: `new Audio` URLs with `encodeURIComponent`, `preload`, the asynchronous `play()` promise and its `.catch`, and the browser's playback timing. A clip is a paused flag, a position that only `play` and `stop` set, and an `onended` flag. Playback time does not advance.
- GallerySound.SoundSystem.Ended: it joins two steps into one event. First the clip reaches its end and stops, as a media element does when playback ends. Then the `onended` listener runs. Neither step alone is modelled.
- GallerySound.SoundSystem.StopCurrentCreatureSound: assumes `pause()` and the `currentTime` write never throw. The source catches such an error, logs it and still clears the current clip (`public/main.js:135-141`).
- GallerySound.SoundSystem.FindNearestExhibit: positions are integer triples, and the radius is a non-negative integer. The scan compares squared distances; the square root `distanceTo` takes is not computed, and `DistanceOrder` only shows that exact real roots would compare the same way. THREE.js float vectors, the rounding of the root, and negative or fractional radii are not modelled.
- Catalog.SoundTableKeys: covers only primitive ids, and among numbers only the safe integers (magnitude at most 2^53 - 1). Beyond that bound not every integer is exact, and `String()` writes numbers in exponent form from 10^21 up; those numbers, NaN, fractional numbers, object-valued ids and object- or array-valued sounds are not modelled. Such a sound is truthy, so the source gives its record a clip, but `Item.Obj` holds only a primitive `sound`. A non-object array element is never playable.
- JsValues.ToJsString: Dafny strings are sequences of Unicode scalar values, while JavaScript strings are UTF-16 code units, so an id or sound holding a lone surrogate cannot be represented.
- Console logging, the `window.GallerySound` debug export (`public/main.js:165-172`) and the background-music element, which this code never touches.
- Errors thrown inside the `try` block of the fetch loop by `loadDisplaySounds` itself: the model's rebuild cannot fail.
