# Visualisation logic of the cluster pages

The cluster pages draw four visualisations from static JSON: a heatmap row of
similarities, a 2-D embedding map, a network of related subclusters, and links
between the pages. The drawing itself builds HTML and SVG strings. Inside it is
a small amount of deterministic data logic, and this project models and proves
that logic in Dafny:

- `VizUtils.slugify`, the URL segment of a name (module `Slug`);
- `VizUtils.getHeatmapColor`, the blue-white-red scale (module `ColorScale`);
- the edge selection of `renderNetworkGraph` (module `NetworkGraph`);
- the legend and point loops of `renderEmbeddingMap` (module `EmbeddingMap`);
- the cell loops of `renderHeatmap` (module `Heatmap`);
- the page path of `navigateToSubcluster` (module `Navigation`).

The markup is replaced by the records it is built from: a legend entry, a map
point, a heatmap cell, a caption. The JSON inputs are datatypes in `VizData`.
The array operations JavaScript provides (`indexOf`, `filter`, `slice`, and the
"first time seen" scan of a `Set`) are in `Sequences`.

The two loop-based renderers are methods. `EmbeddingMap.RenderEmbeddingMap`
keeps the `primariesSeen` set and `Heatmap.RenderHeatmap` walks primaries and
members in nested loops. Each method is proved equal to a pure specification
function, and the properties are lemmas about those functions.

`renderHeatmap` can end in three ways:

- `Unchanged`: the current id is not in the matrix, so the function returns at line 49.
- `Thrown`: some member has no similarity. Either the matrix has no row for the
  current id, so `simRow[idx]` throws at line 61, or the value read is
  undefined, so `sim.toFixed` throws at line 70. The container is never assigned.
- `Rendered`: the row, with its cells and captions.

JavaScript numbers are modelled as reals. `Math.round(x)` is `floor(x + 0.5)`,
which is exact for every real.

`slugify` is modelled on every character, not only ASCII:

- `\w` is ASCII letters, digits and `_`.
- `\s` is the ECMAScript white-space and line-terminator set.
- Lower-casing changes only `A`-`Z`.

Every other letter either is deleted at step 2 or was never upper-case. The
only exceptions are listed under "Left out".

## Model

| member | source | states |
|---|---|---|
| VizData.ColorFor | js/visualizations.js:189 | `colors.by_name[name] \|\| '#999'`: the table's colour when the name has a non-empty one, the grey fallback when the key is missing or the colour is empty; never empty |
| Sequences.IndexOf | js/visualizations.js:48 | `indexOf`: -1 exactly when the value is absent, otherwise the first index holding it |
| Sequences.Take | js/visualizations.js:38 | `substring(0, n)` / `slice(0, n)`: a prefix of length min(n, length) |
| Sequences.Filter | js/visualizations.js:220 | `filter`: the result holds only elements passing the test, and every passing element of the input appears in it |
| Sequences.FilterConcat | js/visualizations.js:220 | filtering distributes over concatenation, so the input order is kept |
| Sequences.FilterCount | js/visualizations.js:220 | each passing value occurs as often as in the input, each failing value never |
| Sequences.FilterNarrower | js/visualizations.js:220 | filtering with a stronger test after a weaker one equals the stronger filter alone, and is no longer |
| Sequences.Distinct | js/visualizations.js:184-192 | the values of the list, each appearing in the result iff it appears in the input |
| Sequences.DistinctHasNoDuplicates | js/visualizations.js:187-188 | the `Set` check lets no value through twice |
| Sequences.DistinctFirstOccurrenceOrder | js/visualizations.js:184-192 | kept values are ordered by the index of their first occurrence |
| Sequences.DistinctLength | js/visualizations.js:184-192 | there are exactly as many kept values as distinct values in the list |
| Slug.ToLower | js/visualizations.js:35 | an upper-case letter becomes the lower-case letter at the same place in the alphabet; any other character is unchanged |
| Slug.Lower | js/visualizations.js:35 | `toLowerCase`: same length, each upper-case letter replaced by its lower-case letter, no upper-case letter left, every other character unchanged |
| Slug.IsWordChar | js/visualizations.js:36 | the class `\w`, which holds only ASCII characters |
| Slug.IsSpace | js/visualizations.js:36-37 | the class `\s`; none of its characters is a word character or `-` |
| Slug.IsKept | js/visualizations.js:36 | the class `[\w\s-]`; after lower-casing, a kept character is a slug character or a separator |
| Slug.IsSeparator | js/visualizations.js:37 | the class `[\s_]`; a separator is never a slug character and never `-` |
| Slug.Strip | js/visualizations.js:36 | `replace(/[^\w\s-]/g, '')`: only word characters, white space and `-` remain, all from the input |
| Slug.RunLength | js/visualizations.js:37 | the extent of one match of `[\s_]+`: every character of the run is a separator and the character after it is not |
| Slug.Collapse | js/visualizations.js:37 | `replace(/[\s_]+/g, '-')`: no separator is left, no longer than the input, every character is `-` or from the input |
| Slug.CollapseRun | js/visualizations.js:37 | a whole run of white space and `_`, of any length, becomes exactly one `-` |
| Slug.CollapseCons | js/visualizations.js:37 | a character outside a separator run, including an existing `-`, is copied through, so hyphen runs are not merged |
| Slug.CollapseKeepsContent | js/visualizations.js:37 | collapsing keeps every character that is neither a separator nor `-`, in order |
| Slug.CollapseWithoutSeparators | js/visualizations.js:37 | a text without white space or `_` is left unchanged by the collapse |
| Slug.Truncate | js/visualizations.js:38 | `substring(0, 50)`: at most 50 characters, a prefix, the whole text when it is short enough |
| Slug.Slugify | js/visualizations.js:34-39 | the result has at most 50 characters, each one of `a`-`z`, `0`-`9` or `-`, and is no longer than the input |
| Slug.SlugIsFixedPoint | js/visualizations.js:35-38 | each of the four steps leaves a slug unchanged |
| Slug.SlugifyIdempotent | js/visualizations.js:34-39 | `slugify(slugify(s)) == slugify(s)` |
| Slug.CollapseSpacedHyphen | js/visualizations.js:37 | `" - b"` collapses to `"---b"`: each single space becomes its own `-` beside the existing one |
| Slug.CollapseHyphenExample | js/visualizations.js:37 | `"a - b"` collapses to `"a---b"` |
| Slug.HyphenRunsKept | js/visualizations.js:34-39 | `slugify("a - b")` is `"a---b"`: existing hyphens are not merged with the runs around them |
| ColorScale.Round | js/visualizations.js:7-9 | `Math.round`: the integer within half a unit of x, halves rounded up |
| ColorScale.RoundMonotonic | js/visualizations.js:7-9 | rounding preserves order |
| ColorScale.HeatmapColor | js/visualizations.js:5-11 | red is 255 whenever v > 0.5 and blue is 255 whenever v < 0.5 |
| ColorScale.HeatmapColorAnchors | js/visualizations.js:6-9 | 0 is blue (0,0,255), 0.5 is white (255,255,255), 1 is red (255,0,0) |
| ColorScale.HeatmapColorInRange | js/visualizations.js:7-9 | for v in [0,1] every channel lies in [0,255] |
| ColorScale.HeatmapColorMirror | js/visualizations.js:7-9 | the colour of 1 - v is the colour of v with red and blue swapped |
| ColorScale.HeatmapColorMonotonic | js/visualizations.js:6-9 | as v grows, red never decreases and blue never increases |
| ColorScale.HeatmapColorIsTint | js/visualizations.js:9 | green is always the smaller of red and blue |
| ColorScale.HeatmapColorSamples | js/visualizations.js:7-9 | 0.2 gives (102,102,255) and 0.6 gives (255,204,204) |
| NetworkGraph.Qualifying | js/visualizations.js:220 | the related entries whose similarity reaches the threshold, and all of them |
| NetworkGraph.SelectConnections | js/visualizations.js:220 | at most 30 connections, each reaching the threshold and taken from the related list; exactly the first min(30, k) of the k qualifying entries, in their order |
| NetworkGraph.DroppedOnlyWhenFull | js/visualizations.js:220 | a qualifying entry is missing from the selection only when 30 connections were selected |
| NetworkGraph.SelectionShrinksAsThresholdRises | js/visualizations.js:220 | raising the threshold never increases the number of connections |
| NetworkGraph.SelectionOfConcat | js/visualizations.js:220 | the selection from two joined lists takes from the second only what room the first leaves |
| EmbeddingMap.LegendEntryFor | js/visualizations.js:189-190 | a legend entry names its primary, shows at most its first 20 characters, and has the primary's colour or the fallback, never empty |
| EmbeddingMap.Legend | js/visualizations.js:184-192 | the legend of the coordinates; every entry names a primary that occurs among them |
| EmbeddingMap.PointFor | js/visualizations.js:197-203 | a point keeps its entry's id, position and article count, takes its primary's colour, and is highlighted iff its id is the current id |
| EmbeddingMap.Points | js/visualizations.js:196-204 | one point per coordinate entry, in order, each built from its entry |
| EmbeddingMap.RenderEmbeddingMap | js/visualizations.js:184-204 | the seen-set loop yields the legend of the distinct primary names and the second loop yields one point per entry |
| EmbeddingMap.LegendCountsDistinctPrimaries | js/visualizations.js:184-192 | one legend entry per distinct primary name |
| EmbeddingMap.LegendCoversPrimaries | js/visualizations.js:186-191 | every primary name has a legend entry and every entry names a primary that occurs |
| EmbeddingMap.LegendHasNoDuplicates | js/visualizations.js:187-188 | no primary name is listed twice |
| EmbeddingMap.LegendInFirstOccurrenceOrder | js/visualizations.js:184-192 | legend entries follow the first occurrence of their names |
| EmbeddingMap.PointsMarkCurrent | js/visualizations.js:198-200 | a point is highlighted iff its id is the current id, and it keeps its entry's position |
| Heatmap.RowAt | js/visualizations.js:51 | `data.matrix[currentIdx]`, absent exactly when the index is past the matrix |
| Heatmap.SimilarityOf | js/visualizations.js:60-61 | `simRow[indexOf(sub.id)]` is a number iff the row exists, the id is listed and the row is long enough |
| Heatmap.CellFor | js/visualizations.js:62-73 | a cell carries its member's id, name and primary, the similarity, the scale colour of that similarity, and the border iff its id is the current id |
| Heatmap.Cells | js/visualizations.js:58-75 | the cells of the visited members, one per member when every member has a similarity |
| Heatmap.LabelFor | js/visualizations.js:82-83 | a caption shows at most 15 characters of its primary's name and its colour; its width is non-negative and 100 for a primary of 70 members |
| Heatmap.HeatmapSpec | js/visualizations.js:43-90 | what `renderHeatmap` leaves behind; a rendered row implies the current id is listed and has one caption per primary |
| Heatmap.Labels | js/visualizations.js:81-84 | one caption per primary, in metadata order |
| Heatmap.RenderHeatmap | js/visualizations.js:48-89 | the nested loops end exactly as `HeatmapSpec` says: unchanged, thrown, or the rendered cells and captions |
| Heatmap.HeatmapUnchangedIff | js/visualizations.js:48-49 | the container is left untouched iff the current id is not in the matrix's id list |
| Heatmap.HeatmapThrowsIff | js/visualizations.js:58-70 | the rendering throws iff the current id is listed and some member of some primary has no similarity in its row |
| Heatmap.FailureIsFinal | js/visualizations.js:61-70 | a single member without a similarity leaves the whole row without cells |
| Heatmap.SlotsCount | js/visualizations.js:58-59 | the nested loops visit as many members as the primaries list in total |
| Heatmap.SlotAt | js/visualizations.js:58-59 | member s of primary p is visited after all members of earlier primaries and the s before it |
| Heatmap.SlotOrigin | js/visualizations.js:58-59 | every visited slot is some member of some primary |
| Heatmap.CellsExistIff | js/visualizations.js:60-70 | a cell list exists iff every visited member has a similarity |
| Heatmap.CellsAt | js/visualizations.js:60-66 | cell i is built from the i-th visited member and its similarity |
| Heatmap.CellOfMember | js/visualizations.js:58-71 | the cell of member s of primary p carries its id, name, primary, matrix similarity, scale colour and current flag |
| Heatmap.HeatmapCellsInOrder | js/visualizations.js:58-75 | a rendered row has one cell per member, in primary-then-member order |
| Heatmap.HeatmapMarksCurrent | js/visualizations.js:63-66 | a cell has the border iff its id is the current id |
| Heatmap.ConsistentDataRenders | js/visualizations.js:48-70 | with a square matrix covering the metadata, the row renders whenever the current id is listed |
| Heatmap.CaptionWidths | js/visualizations.js:81-84 | the captions span members/70 of the row, and exactly the whole row iff there are 70 members |
| Heatmap.ThreeSubclusterRow | js/visualizations.js:48-89 | a three-member example renders a blue-ish, a red and a red-ish cell, with the border on the current one |
| Navigation.FindById | js/visualizations.js:288 | `find(c => c.id === id)`: absent iff no entry has the id, otherwise the first entry that does |
| Navigation.SubclusterName | js/visualizations.js:288 | `allCoords?.find(...)?.name \|\| id`: the first matching entry's name, or the id when the coordinates are absent, nothing matches or the name is empty |
| Navigation.NavigationPath | js/visualizations.js:285-291 | the path parses back into the slug of the primary name and the slug of the subcluster name |
| Navigation.PathRoundTrip | js/visualizations.js:290 | any two slugs joined into a page path are read back unchanged |
| Navigation.ParsedPathRebuilds | js/visualizations.js:290 | every accepted path is the one built from the two slugs it is read as |
| Navigation.NavigationPathDeterminesSlugs | js/visualizations.js:285-291 | equal paths mean equal primary slugs and equal subcluster slugs |

## Left out

- Tooltips (`showTooltip`, `hideTooltip`, lines 14-31), `toggleCollapsible` (lines 294-298) and all `innerHTML`, `appendChild` and inline handler markup: browser side effects. Records stand in for the HTML and SVG.
- The early return when the container or the data is missing (lines 45, 179, 212): a DOM lookup. The model starts with the data present.
- The radar chart (lines 93-174) and the node geometry and edge styling of the network graph (lines 214-259): canvas calls and `Math.cos`/`Math.sin` floating-point geometry.
- Number formatting with `toFixed` (lines 70, 82, 259, 267) and the `rgb(r, g, b)` string of line 10: float-to-string formatting. Captions carry the unformatted width and cells the integer channels.
- The fixed two-caption heatmap legend (line 87): a constant string.
- The `colors` parameter of `renderHeatmap`: the function never reads it.
- Page bootstrap (lines 301-327) and the threshold slider `updateNetworkThreshold` (lines 277-282): `fetch`, `parseFloat` and `window` globals. The threshold and the coordinates are parameters instead.
- The assignment to `window.location.href` (line 290): the path is the model's result.
- ColorScale.HeatmapColor: similarities are reals, not IEEE doubles, so rounding of `255 * value * 2` in floating point is not modelled.
- Slug.Lower: lower-cases only `A`-`Z`. JavaScript also lower-cases U+0130 to `i` followed by U+0307 and U+212A to `k`; for those two characters the model deletes what the source would keep as `i` or `k`.
- EmbeddingMap.LegendEntryFor: the 20-character caption counts Unicode characters, while `substring(0, 20)` counts UTF-16 code units, so a name with characters outside the Basic Multilingual Plane (emoji, for example) gets a longer caption in the model than on the page.
- Heatmap.LabelFor: the 15-character caption counts Unicode characters, not UTF-16 code units, with the same consequence for names with characters outside the Basic Multilingual Plane.
- VizData.ColorFor: looks up only the colour table's own keys. On the parsed JSON object, `colors.by_name[name]` also finds members inherited from `Object.prototype`, so a primary named `constructor` or `toString` gets a function (truthy) instead of `'#999'` on the page.
- Slug.Truncate: counts characters, while `substring` counts UTF-16 code units. After steps 2 and 3 only ASCII characters are left, so the two agree.
- A `metadata` without `primaries`, or a non-array `subclusters`, which would throw a `TypeError`: the JSON files are taken as well formed.
