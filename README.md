# Relationship graph page: a Dafny model of its filter, selection and music-player logic

The page draws the characters of a classical novel as a force-directed graph. Nodes carry
`id`, `group` and an optional `description`. Links carry `source`, `target`, `type`, an
integer `value` and an optional `description`. This project models the part of the page
that is logic rather than drawing:

- the in-place normalization of link endpoints from id strings to node references;
- the relation-type filter and the text search that derive the drawn subset of the graph;
- the info panel's relation list: incident links, stably sorted by descending weight, at most ten;
- the emphasis (full or dimmed) of nodes and links when a node is focused, and its reset;
- the mutually exclusive relation-type checkboxes;
- the per-tick clamp of node positions to the canvas;
- the selection state machine (`selectedNode`, the info panel, the emphasis);
- the volume, mute and play state of the background-music widget.

Modules, one per concern:

| file | module | what |
|---|---|---|
| wrappers.dfy | `Wrappers` | `Option`, standing for `undefined` |
| text.dfy | `Text` | ASCII lower-casing and `String.prototype.includes` |
| seqs.dfy | `Seqs` | `Array.prototype.filter` and order-preserving subsequences |
| graph.dfy | `GraphData` | nodes, links, endpoints, the `nodeById` table, normalization |
| views.dfy | `Views` | `applyFilters` and `handleSearch` derivations |
| ranking.dfy | `Ranking` | the stable sort, the top ten, the info panel text |
| highlight.dfy | `Highlight` | `highlightConnections` / `resetHighlight` as exact constants |
| layout.dfy | `Layout` | the boundary clamp of a tick |
| app.dfy | `App` | class `Page`: the page's state and event handlers |
| music.dfy | `Music` | the `Player` transitions and class `MusicPlayer` |

Imperative code stays imperative. Normalization rewrites an `array<Link>` in place. The
`nodeById` table is built by a loop. The tick clamp writes the `x`/`y` fields of node
objects. The checkbox handler clears an `array<bool>`. The page's globals and the music
player are classes whose methods modify their fields. Each state-changing method states
its whole new state: `Page`'s handlers do so field by field, and `MusicPlayer`'s do so
through the `Player` transition functions, about which the lemmas are proved. The
filter, search, ranking and emphasis derivations are pure functions with lemmas.

The model keeps these behaviours of the code:

- there is no family/group filter: the code has none;
- the checkboxes are mutually exclusive;
- with no box checked, the whole graph is re-rendered, and that also clears the selection;
- the `link.source.id || link.source` key keeps its quirk: a node whose id is the empty
  string contributes the node object rather than a string, so the relation filter never
  keeps such a node, and the search never keeps a link that touches one.

## Model

| member | source | states |
|---|---|---|
| `Text.IncludesIff` | js/main.js:548-551 | `includes` holds iff the term occurs at some position of the string (the empty term occurs everywhere) |
| `Text.LowerEmpty` | js/main.js:541-545 | the lower-cased term is empty exactly when the input is, so the search falls back to the filters exactly on an empty box |
| `GraphData.LastWithIdSpec` | js/main.js:96-99 | the node an id names is present iff some node has that id, and it is the last node in `nodes` with that id |
| `GraphData.BuildIndex` | js/main.js:96-99 | the loop builds a table that maps every id to the last node with that id and maps no other id |
| `GraphData.NormalizeLinks` | js/main.js:102-109 | every link in the array is replaced by its normalized form and nothing else changes |
| `GraphData.NormalizeEndpointSpec` | js/main.js:102-109 | a string endpoint becomes a reference to the last node with that id, or `undefined` if no node has it; references and `undefined` are untouched |
| `GraphData.NormalizeIsResolve` | js/main.js:102-109 | table-based normalization equals the table-free reference definition `ResolveEndpoint` |
| `GraphData.NormalizeResolves` | js/main.js:102-109 | an endpoint ends up a reference iff it was one or was a string naming some node |
| `GraphData.NormalizeIdempotent` | js/main.js:102-109 | normalizing twice equals normalizing once, and no string endpoint survives |
| `GraphData.NormalizeResolved` | js/main.js:102-109 | a link whose ends are both references is left unchanged by normalization |
| `Views.CheckedTypes` | js/main.js:577-578 | the selected types are exactly the values of checked boxes, and there are none iff no box is checked |
| `Views.FilterViewSpec` | js/main.js:595-608 | kept links are the graph's links of a checked type, each as often as in the graph, in order. Kept nodes are the graph's nodes, each as often as in the graph, in order, with a non-empty id touched by a kept link. No kept node is isolated, and every node a kept link touches is kept |
| `Views.EndpointKeysSpec` | js/main.js:601-605 | a string is in `nodeIds` iff it is the non-empty id at an end of a kept link; an empty id contributes the node object, never the string |
| `Views.FilterViewExample` | js/main.js:595-608 | with three nodes and two links of different types, filtering to one type keeps exactly that link and its two end nodes |
| `Views.SearchViewSpec` | js/main.js:548-558 | a node is kept iff the term occurs in its lower-cased id or lower-cased description. A link is kept iff both ends have a non-empty id shared by a kept node. Every kept node and link appears as often as in the graph, in graph order |
| `Ranking.InsertByValue` | js/main.js:274 | inserting adds exactly one copy of the link and removes nothing |
| `Ranking.InsertSorted` | js/main.js:274 | inserting into a descending sequence keeps it descending |
| `Ranking.SortByValueDesc` | js/main.js:274 | the sort returns a permutation of its input in non-increasing order of `value` |
| `Ranking.SortStable` | js/main.js:274 | for every value, the links with that value come out in their input order |
| `Ranking.SortUnique` | js/main.js:274 | any descending, tie-order-preserving arrangement of the input equals `SortByValueDesc`, so the model's result is the result of a stable sort |
| `Ranking.SortedPrefix` | js/main.js:276 | a prefix of a sorted list is sorted, and nothing after it weighs more than anything in it |
| `Ranking.TopRelationsIncident` | js/main.js:270-272 | every listed relation is a graph link incident to the node |
| `Ranking.TopRelationsLength` | js/main.js:276 | the list has min(10, number of incident links) entries |
| `Ranking.TopRelationsSpec` | js/main.js:270-276 | the list holds only incident links, sorted by descending value, at most 10. No incident link left out weighs more than a listed one. All incident links are listed when there are at most 10 |
| `Ranking.InfoPanelSpec` | js/main.js:242-281 | the panel is titled with the node's id and shows its description, or the placeholder 暂无描述 when it has none. Entry i belongs to the i-th listed relation, an incident graph link: it names that link's other end and its description, or its type if there is none |
| `Highlight.FocusLinkLook` | js/main.js:303-314 | under a focus on N, a graph link is at opacity 1 iff it touches N; every other link is greyed at 0.1 |
| `Highlight.FocusNodeLit` | js/main.js:316-343 | under a focus on N, a node is full iff it is N or joined to N by a link in either direction. Others get opacity 0.15, a grey filter and label opacity 0.3 |
| `Highlight.FocusRadiusOnlyCenter` | js/main.js:290-300 | nodes with N's id get radius 12 (minor roles) or 15 and stroke width 3; every other node keeps exactly its first-drawn radius 7/10 and stroke 1/2 |
| `Highlight.PlainLook` | js/main.js:500-513 | a reset draws every node exactly as first drawn. Against a focus it changes exactly the focused node and the dimmed ones, and it changes every graph link. Nothing stays greyed, and links return to 0.6 |
| `Layout.ClampWithin` | js/main.js:190-192 | on a canvas at least 30 wide, a clamped coordinate lies within [15, size - 15] |
| `Layout.ClampKeepsInside` | js/main.js:696-698 | a coordinate already within [15, size - 15] is unchanged |
| `Layout.ClampNarrow` | js/main.js:190-192 | on a canvas narrower than 30, every coordinate clamps to 15 |
| `Layout.ClampIdempotent` | js/main.js:696-698 | clamping twice equals clamping once |
| `Layout.ClampAll` | js/main.js:174-193 | each drawn node's x and y are clamped to the margins; with width and height at least 30, every node ends within them |
| `App.Page.constructor` | js/main.js:76-77 | after the load the whole graph is drawn. Every endpoint is the node its id names, and nothing is selected |
| `App.Page.RenderFull` | js/main.js:91-109 | re-rendering draws the whole graph afresh, with endpoints unchanged and the selection untouched |
| `App.Page.UpdateGraph` | js/main.js:618-629 | a filtered update draws the given subset and clears the selection and the panel |
| `App.Page.ApplyFilters` | js/main.js:575-615 | with no box checked the whole graph is drawn; otherwise the filtered view is drawn. Either way nothing is selected afterwards |
| `App.Page.ClickNode` | js/main.js:226-231 | the clicked node is selected, its panel is shown and the emphasis focuses on it |
| `App.Page.CloseInfo` | js/main.js:445-449 | closing the panel clears the selection and resets the emphasis |
| `App.Page.ResetHighlight` | js/main.js:452-455 | the reset-highlight button resets the emphasis but keeps the selection and its panel |
| `App.Page.ClickCanvas` | js/main.js:481-487 | a canvas click clears a selection and resets the emphasis; with nothing selected it changes nothing |
| `App.Page.ResetView` | js/main.js:517-537 | all boxes are unchecked, the search box is emptied, the whole graph is drawn and nothing is selected |
| `App.Page.Search` | js/main.js:540-572 | an empty box behaves as the filters. Otherwise the search view is drawn, and the selection becomes the single match if there is exactly one, else nothing |
| `App.Page.ChangeBox` | js/main.js:464-476 | checking a box unchecks every other box and unchecking leaves them alone, so at most one box stays checked. After a check the view is filtered to that box's type. After an uncheck it is the whole graph if no box is left checked, else the filter of the checked types. The selection is cleared and the search box is untouched |
| `Music.MuteThenUnmute` | js/music-player.js:230-242 | mute then unmute restores the audio volume and leaves the player unmuted; mute does not touch `volume` |
| `Music.ToggleMuteTwice` | js/music-player.js:222-243 | from an unmuted state, two presses of the mute button change nothing except that the saved volume becomes the audio volume |
| `Music.SetVolumeZeroKeepsSaved` | js/music-player.js:245-253 | `setVolume(0)` mutes without saving the volume, so the next unmute restores the volume saved by the last real mute |
| `Music.SlideToZeroThenUnmute` | js/music-player.js:245-253 | from the initial state, sliding to 0.8, then to 0, then pressing mute gives volume 0.5, not 0.8 |
| `Music.SetVolumePositive` | js/music-player.js:245-249 | a positive volume unmutes and becomes the audio volume |
| `Music.ConsistentPreserved` | js/music-player.js:3-16 | the initial state and every control the page wires up keep the invariant "muted iff silent, and the saved volume is audible" |
| `Music.MuteIconIffMuted` | js/music-player.js:266-275 | in a consistent state the icon check of `updateVolumeIcon` (`isMuted || audio.volume === 0`) holds exactly when the player is muted |
| `Music.MuteTwiceLosesVolume` | js/music-player.js:230-235 | `mute` does not check `isMuted`, so muting twice saves silence and a later unmute stays silent |
| `Music.PlayPause` | js/music-player.js:197-219 | pause always stops. Toggling starts playback iff the player was paused and the promise resolves. A rejected play changes nothing, and toggling never touches volumes |
| `Music.MusicPlayer.constructor` | js/music-player.js:3-16 | the new player is paused and unmuted, with all three volumes at 0.5 |
| `Music.MusicPlayer.Mute` | js/music-player.js:230-235 | the audio volume is saved, the audio is silenced, and the player is muted |
| `Music.MusicPlayer.Unmute` | js/music-player.js:238-242 | the saved volume is restored and the player is unmuted |
| `Music.MusicPlayer.ToggleMute` | js/music-player.js:222-228 | the method unmutes if the player is muted and mutes otherwise |
| `Music.MusicPlayer.SetVolume` | js/music-player.js:245-253 | both volumes become v; v > 0 unmutes a muted player, v = 0 mutes it, and the saved volume is untouched |
| `Music.MusicPlayer.Pause` | js/music-player.js:216-220 | the player is not playing afterwards |
| `Music.MusicPlayer.Play` | js/music-player.js:205-214 | the player is playing iff it was already playing or the promise resolves |
| `Music.MusicPlayer.TogglePlay` | js/music-player.js:197-203 | the method pauses if the player is playing and plays otherwise |

## Left out

- The d3 force simulation is left out: its forces, alpha and restarts are an unseen library running float physics.
- Drag pinning (`fx`/`fy`) is left out for the same reason.
- The extra centre pull on minor-role nodes is left out: it uses `Math.sqrt` and float scaling. Only the min/max clamp that follows it is modelled, on exact reals.
- SVG and DOM drawing is left out: element creation, tooltips, zoom, legends, colour tables, link stroke widths and the image path of the info panel.
- The tooltip rule "no tooltip while a node is selected" is left out with the tooltips.
- Data loading is left out: the fetch, its error message and the shape check. `App.Page.constructor` starts from a loaded document.
- The debounced resize handler is left out: it is timing and canvas size, and the clamp takes width and height as parameters.
- js/load_conf_by_id.js is not part of this model: it fetches a file and copies text into DOM elements.
- The music player's Audio element is left out except for its volume. So are autoplay with its first-click fallback, the control-panel HTML and listeners, drag-to-move and the icon class swaps.
- `updateVolumeIcon` is kept only as its check, the predicate `ShowsMuteIcon`. The class swap itself works only once: the function finds the icon by the class `volume-icon` that the swap removes (music-player.js:267-270). After the first switch to the muted icon, each later call finds no element and throws, so the muted icon stays while the player state is updated normally. `updatePlayIcon` (music-player.js:256-263) has the same one-shot lookup by `play-icon`. The model states the player state and the check, not the icon actually shown.
- The volume slider is left out: its scaling by 100 and the slider positions written by `mute` and `unmute`.
- `Play` takes the outcome of `audio.play()`'s promise as an input and applies it at once. The asynchrony, with events that could interleave before the promise settles, is not modelled.
- Case folding is ASCII only: `Text.Lower` folds A-Z and nothing else, while JavaScript's `toLowerCase` folds all of Unicode.
- A link endpoint naming an unknown id becomes `undefined`, and the page then throws a TypeError in its filter, search, panel and highlight code. The model does not represent that crash:
  - `App.Page.constructor` requires every string endpoint to name a node;
  - the filter and search lemmas and `InfoPanel` require resolved links.
- `App.Page.ChangeBox` runs on the checkbox state after the browser has flipped the box; the flip itself is the browser's.
- `nodeById` is modelled as a map whose keys are exactly the ids stored in it. The object's inherited `Object.prototype` members are not modelled:
  - an unknown id such as `toString` or `constructor` resolves to an inherited function, not `undefined`, and the page then does not throw;
  - a node whose id is `__proto__` is not stored at all, because that assignment replaces the table's prototype.
- Nodes and links are values, so object identity is not modelled. `connectedLinks.includes(d)` becomes membership by value. This changes nothing: equal links are either both incident or both not.
- `Node` keeps only `id`, `group` and `description`. Other fields such as `image` and `family` are not modelled, so two nodes that differ only in them are equal values. The filter and search lemmas count each such copy as often as the graph holds it.
- Node positions are objects of their own (`Layout.Body`) rather than fields of `Node`.
- `Music.MusicPlayer.SetVolume` requires 0 <= v <= 1. That is the range the slider passes after dividing by 100, and the audio element rejects values outside it.
- Link values are integers, and volumes and positions are exact reals. Floating-point rounding is not modelled.
