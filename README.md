# Popup list controller (`CList`) in Dafny

This project models the non-drawing logic of `CList`, the popup list controller of the vimuiex plugin (`modpython/vimuiex/popuplist.py`). A `CList` holds the following:

- a list of items and a filter string;
- a lazily computed filtered view, in which items whose text starts with the filter come first;
- a cached width for a tab-delimited first column;
- a size, a position and an alignment string that place the list box on the screen.

The model covers the following:

- filtering and ranking of items, and the view cache;
- mapping a view index back to `allitems`, and expanding `{{i}}` in commands;
- clamping of size and position to the screen, automatic sizing and alignment;
- the `winpos:` commands that edit the alignment, and the `doCommand` dispatch;
- the first-column width scan and title truncation.

The model is split into modules:

- `Wrappers`: `Option` for Python's `None`, and `Result` for calls that raise.
- `PyStr`: the Python string builtins the code relies on, with their properties proved. These are `lower`, `find`, `startswith`, `replace`, `strip`/`lstrip`/`rstrip`, slicing with negative bounds, `"%d"` and `*`. `replace` is defined as CPython computes it: find the first occurrence, put in the replacement, and go on searching after the occurrence.
- `Items`:
  - `ListItem` (`CListItem`), compared by identity as in Python.
  - The filter rule: `Classify` is one iteration of the filter loop; `Group` is one of the two lists it builds.
  - `Filtered`, the view, with lemmas on membership, order and multiplicity.
- `Layout`: screen geometry on pairs of integers. This covers the room on screen, size and position limits, alignment letters, autosize, the alignment edits and the first-column width specification.
- `PopupList`: the class `CList`. Its methods update the fields as the Python methods do, except where "## Findings" corrects the code, and each is proved against the functions above. `Valid()` states that the view cache equals `Filtered(...)` and that a cached column width is positive.

The screen size `(columns, lines)` and the border are parameters. The program reads the screen size from the editor and the border from a global that the backend sets: (2, 2), or (12, 4) under curses.

Two behaviours of the code are worth knowing:

- Filter "ap" over `["apple", "banana", "grape"]` keeps `grape` as well, because "ap" occurs in "grape" at index 2 (`Items.FruitExample`).
- Without an alignment, `relayout` leaves the position as it is and does not clamp it.

## Model

| member | source | states |
|---|---|---|
| Items.ListItem.constructor | modpython/vimuiex/popuplist.py:44-49 | a new item has the given text, no flags, no quick char and is not selected |
| Items.ListItem.DisplayText | modpython/vimuiex/popuplist.py:51-53 | the displayed text is the item's own text |
| Items.ListItem.FilterText | modpython/vimuiex/popuplist.py:55-57 | the filter looks at the same text as is displayed |
| Items.Classify | modpython/vimuiex/popuplist.py:241-244 | an item is kept exactly when the lower-cased filter occurs in its lower-cased filter text; it goes to the head group exactly when `filtersort` is on and the text starts with the filter |
| Items.Group | modpython/vimuiex/popuplist.py:239-244 | one of the lists the filter loop builds (`inhead` or `intail`), never longer than the list; what it holds is stated by the lemmas below |
| Items.GroupSound | modpython/vimuiex/popuplist.py:240-244 | every item of a group comes from the list and was filed under that group's rank |
| Items.GroupSnoc | modpython/vimuiex/popuplist.py:240-244 | one more iteration of the loop appends the item to its rank's group and leaves the other group as it was |
| Items.GroupComplete | modpython/vimuiex/popuplist.py:240-244 | every item of the list filed under a rank is in that rank's group |
| Items.GroupConcat | modpython/vimuiex/popuplist.py:240-244 | grouping a concatenation is the concatenation of the groups (the loop appends in list order) |
| Items.GroupOfGroup | modpython/vimuiex/popuplist.py:240-244 | regrouping a group keeps it whole under its own rank and empties it under the other |
| Items.Filtered | modpython/vimuiex/popuplist.py:233-245 | the view: an empty filter shows `allitems` itself; its meaning for a non-empty filter is stated by the lemmas below |
| Items.FilteredMembers | modpython/vimuiex/popuplist.py:233-245 | an empty filter yields `allitems` itself; otherwise the view holds only items of `allitems`, exactly those whose lower-cased text contains the lower-cased filter |
| Items.FilteredHeadsFirst | modpython/vimuiex/popuplist.py:239-245 | with `filtersort`, an item starting with the filter comes before every match that does not start with it |
| Items.FilteredGroupsStable | modpython/vimuiex/popuplist.py:239-245 | within each rank the view keeps the order of `allitems` |
| Items.UnsortedGroups | modpython/vimuiex/popuplist.py:243-244 | without `filtersort` the head group is empty and the tail group is exactly the matches in order |
| Items.FilteredUnsorted | modpython/vimuiex/popuplist.py:233-245 | without `filtersort` the view is the order-preserving subsequence of matching items |
| Items.GroupsPartitionMatching | modpython/vimuiex/popuplist.py:240-245 | the two groups together hold each matching item exactly as often as the list does |
| Items.FilteredPermutesMatching | modpython/vimuiex/popuplist.py:233-245 | the view is a permutation of the matching items, whatever `filtersort` says |
| Items.IndexOf | modpython/vimuiex/popuplist.py:274 | `list.index` by identity: a position holding the object, with no earlier one |
| Items.FruitExample | modpython/vimuiex/popuplist.py:233-245 | filter "ap" over apple, banana, grape gives apple then grape |
| Items.RankingExample | modpython/vimuiex/popuplist.py:239-245 | filter "a" over xa, ax, ya gives ax, xa, ya with `filtersort` and the list order without it |
| Items.FilteredOfThree | modpython/vimuiex/popuplist.py:239-245 | a three-item view is the heads in list order followed by the tails in list order |
| PyStr.Lower | modpython/vimuiex/popuplist.py:237 | `lower()` keeps the length, maps each upper-case ASCII letter to its lower-case letter and leaves every other character alone, so no upper-case letter is left |
| PyStr.Find | modpython/vimuiex/popuplist.py:241 | `find()` gives the first occurrence of the pattern, -1 exactly when there is none, and 0 exactly when the text starts with the pattern |
| PyStr.OccursChar | modpython/vimuiex/popuplist.py:348-353 | a one-letter pattern occurs exactly when the letter is in the string |
| PyStr.ReplaceAbsent | modpython/vimuiex/popuplist.py:279 | `replace()` leaves a string without the pattern unchanged |
| PyStr.ReplaceAfterFree | modpython/vimuiex/popuplist.py:279 | for a pattern that cannot overlap itself, text free of it, then the pattern, then the rest becomes the text, the replacement and the replaced rest; with `ReplaceAbsent` this fixes `replace()` on every string |
| PyStr.ReplaceLeavesNone | modpython/vimuiex/popuplist.py:279 | when the replacement shares no character with the pattern, no occurrence of the pattern is left |
| PyStr.RStrip | modpython/vimuiex/popuplist.py:319 | `rstrip()` removes exactly the trailing white space: a prefix, everything after it white space, its last character not |
| PyStr.LStrip | modpython/vimuiex/popuplist.py:178 | `lstrip()` removes exactly the leading white space |
| PyStr.Strip | modpython/vimuiex/popuplist.py:178-180 | `strip()` is `lstrip()` then `rstrip()`, never longer than the string |
| PyStr.StripParts | modpython/vimuiex/popuplist.py:178-180 | `strip()` leaves the infix of the string that has only white space before it and only white space after it |
| PyStr.StripTrimmed | modpython/vimuiex/popuplist.py:178-180 | the result of `strip()` neither starts nor ends with white space |
| PyStr.SliceFrom | modpython/vimuiex/popuplist.py:106 | `s[k:]` is a suffix of `s`, its length set by the Python rule for negative and out-of-range `k` |
| PyStr.SliceTo | modpython/vimuiex/popuplist.py:107 | `s[:k]` is a prefix of `s`, its length set by the Python rule for negative and out-of-range `k` |
| PyStr.Digits | modpython/vimuiex/popuplist.py:279 | the decimal digits of a natural number: all digits, no leading zero, and their value is the number |
| PyStr.Decimal | modpython/vimuiex/popuplist.py:279 | `"%d" % i` is "0" for 0; otherwise the digits of `|i|` with no leading zero, after a `-` for negative `i`, and their value is `|i|` |
| PyStr.Repeat | modpython/vimuiex/popuplist.py:267 | `s * n` has `n` times the length of `s` and only elements of `s` |
| PyStr.RepeatAt | modpython/vimuiex/popuplist.py:267 | position `i` of `s * n` holds `s[i % len(s)]` |
| Layout.MaxSize | modpython/vimuiex/popuplist.py:282-286 | the room plus the border is the screen, on each axis |
| Layout.Offset | modpython/vimuiex/popuplist.py:302-303 | `BORDER[i] / 2` rounds half the border down (floor division) |
| Layout.FitMinSize | modpython/vimuiex/popuplist.py:290-291 | the minimum size fits the room, is unchanged where it already fitted and equals the room where it did not |
| Layout.ClampAxis | modpython/vimuiex/popuplist.py:292-295 | a value in range is kept; one below the minimum becomes the minimum, or the maximum when the minimum is larger; one above the maximum becomes the maximum |
| Layout.LimitSize | modpython/vimuiex/popuplist.py:288-296 | on each axis a size in range is kept, one below the minimum becomes the minimum shrunk to the room, and one beyond the room becomes the room; so the result never exceeds the room and never falls below the shrunk minimum |
| Layout.LimitSizeIdempotent | modpython/vimuiex/popuplist.py:288-296 | limiting a second time, with the minimum size left by the first call, changes nothing |
| Layout.LimitSizeAsWritten | modpython/vimuiex/popuplist.py:288-296 | as written the call raises `TypeError` exactly when the minimum size does not fit the room, and otherwise agrees with `LimitSize` |
| Layout.NarrowScreenRaises | modpython/vimuiex/popuplist.py:290 | on a 14-column screen the code as written raises where the corrected limit yields (12, 10) |
| Layout.PlaceAxis | modpython/vimuiex/popuplist.py:304-307 | a start already inside is kept; one before the offset moves to the offset when the box fits; a box that sticks out, or does not fit at all, is pulled back so that its far edge is on the room's edge |
| Layout.LimitPosition | modpython/vimuiex/popuplist.py:298-308 | on each axis as `PlaceAxis`, measured from the left and top offsets: a position inside is kept, one before the offset moves to it when the box fits, and a box that sticks out ends on the room's edge; so `x - l + sx <= w` and `y - t + sy <= h` |
| Layout.LimitPositionIdempotent | modpython/vimuiex/popuplist.py:298-308 | limiting a limited position changes nothing, whatever the size |
| Layout.LimitPositionAsWritten | modpython/vimuiex/popuplist.py:298-308 | as written: the vertical coordinate is raised to the top offset and, when the box then sticks out, set to `h - sy + l` with the left offset; the horizontal result is the intended one; the bottom edge stays on screen when `l <= t`, and the whole result is the intended one when `l == t` |
| Layout.CursesBorderOverflow | modpython/vimuiex/popuplist.py:307 | with border (12, 4) on 80x24, a 20-line box asked for at line 10 ends 4 lines below the room as written; corrected it sits at line 2 |
| Layout.AlignAxis | modpython/vimuiex/popuplist.py:348-353 | the near-edge letter (`t`, `l`) wins and gives the offset; else the far-edge letter (`b`, `r`) puts the far edge on the room's edge; else the box is centred, the gaps differing by at most one |
| Layout.Aligned | modpython/vimuiex/popuplist.py:343-353 | `l`/`t` put the box at the offset; otherwise `r`/`b` put its far edge on the room's edge; otherwise it is centred on that axis; letters in either case |
| Layout.EdgeAlignmentKept | modpython/vimuiex/popuplist.py:343-354 | a box that fits and is aligned to an edge keeps that coordinate after the position limit |
| Layout.Longest | modpython/vimuiex/popuplist.py:340 | the longest display text bounds every item's text and is attained by one of them |
| Layout.HasLetterIn | modpython/vimuiex/popuplist.py:337-338 | an option letter is found in the lower-cased option string exactly when it is in it |
| Layout.Drop | modpython/vimuiex/popuplist.py:189-190 | removing letters never lengthens the string; which characters stay is stated by `DropMembers` |
| Layout.AutoSize | modpython/vimuiex/popuplist.py:334-340 | with `v` the height is the item count plus 2; with `h` the width is the longest text plus 2, or 0 for no items; an axis without its letter keeps its size |
| Layout.AutoHeightExample | modpython/vimuiex/popuplist.py:334-341 | on an 80x24 screen with border (2, 2), autosize "V" over five items gives height 7 |
| Layout.DropMembers | modpython/vimuiex/popuplist.py:189-190 | a character survives the removal exactly when it was there and is not removed |
| Layout.DropNothing | modpython/vimuiex/popuplist.py:189-190 | removing no characters leaves the string unchanged |
| Layout.DropConcat | modpython/vimuiex/popuplist.py:189-190 | removing letters from a concatenation removes them from each part |
| Layout.ReplaceDrops | modpython/vimuiex/popuplist.py:190 | `replace(ch, "")` removes every `ch` and keeps the rest in order |
| Layout.DropAppend | modpython/vimuiex/popuplist.py:190 | removing the letters one at a time, as the loop does, is removing them all |
| Layout.Realigned | modpython/vimuiex/popuplist.py:186-192 | a letter is in the new alignment exactly when it is added, or was in the lower-cased old one and is not removed; the result has no upper case when `add` has none |
| Layout.WinposEdit | modpython/vimuiex/popuplist.py:194-200 | exactly the seven alignment commands, with their spellings `ceneter`, edit the alignment, and the letters they add are lower case |
| Layout.WinposAlign | modpython/vimuiex/popuplist.py:186-200 | an alignment command yields an alignment in which a letter is present exactly when it is added, or was present (in either case) and is not removed |
| Layout.WinposLetters | modpython/vimuiex/popuplist.py:194-200 | an edge command puts in its letter, takes out the opposite one and keeps the other axis; the centring commands take out their axes' letters; the result is lower case |
| Layout.FieldWidth | modpython/vimuiex/popuplist.py:318-319 | the first column's width is at most the position of the first tab |
| Layout.AnyTabIff | modpython/vimuiex/popuplist.py:317 | some item has a tab exactly when one of its indices holds an item with a tab |
| Layout.WidestBounds | modpython/vimuiex/popuplist.py:316-320 | the widest first column bounds every tabbed item's first column, is attained by one, and is 0 when no item has a tab |
| Layout.WidestGrows | modpython/vimuiex/popuplist.py:316-321 | the widest column of a prefix is at most that of the whole list |
| Layout.ColumnCap | modpython/vimuiex/popuplist.py:311-314 | the cap is the text width times the fraction clamped to 20..80 per cent, truncated toward zero |
| Layout.FirstColumnWidth | modpython/vimuiex/popuplist.py:310-322 | 0 when no item has a tab; otherwise no more than the cap |
| Layout.FirstColumnWidthBounds | modpython/vimuiex/popuplist.py:310-322 | with a tabbed item the width is at most the cap, no less than any tabbed column (capped) and no more than some tabbed column, so it is the widest column capped at `wmax`; in `[0, wmax]` when `wmax >= 0` |
| Layout.WantsColumn | modpython/vimuiex/popuplist.py:325 | a first column is wanted exactly when there is an autosize string holding `c` or `C` |
| Layout.LowerHasC | modpython/vimuiex/popuplist.py:325 | `c` is in the lower-cased string exactly when `c` or `C` is in the string |
| Layout.WantsColumnAsWritten | modpython/vimuiex/popuplist.py:325 | as written the test raises `AttributeError` exactly when there is no autosize string, and otherwise agrees with `WantsColumn` |
| PopupList.ParseCommand | modpython/vimuiex/popuplist.py:177-183 | `list:`, `winpos:` and `vim:` are told apart by their prefixes, which exclude one another; the argument is the stripped remainder |
| PopupList.DoListCommand | modpython/vimuiex/popuplist.py:202-203 | the hook hands the command back unchanged |
| PopupList.PlaceholderUnbordered | modpython/vimuiex/popuplist.py:279 | `{{i}}` cannot overlap itself |
| PopupList.ExpandSplits | modpython/vimuiex/popuplist.py:279 | text without `{{i}}`, then `{{i}}`, then the rest expands to the text, the index and the expanded rest: every `{{i}}` is replaced and the text between them is kept |
| PopupList.TestLines | modpython/vimuiex/popuplist.py:267 | 40 lines cycling through `"one"*14`, `"two"*13`, `"three"*12` and `"four"*11` in that order |
| PopupList.CList.constructor | modpython/vimuiex/popuplist.py:65-98 | the defaults: title "" for none, alignment `<`, minimum size (16, 4), column fraction 30 per cent, no items, empty filter, no caches, both sorts on, auto-accept on quick char |
| PopupList.CList.GetTitle | modpython/vimuiex/popuplist.py:100-107 | a title shorter than `maxwidth` is kept; otherwise exactly `maxwidth` characters, the start for `<` and the end for `>`, with `...` at the cut when `maxwidth > 12`; at `maxwidth` 0 the whole title for `>` and "" otherwise; a negative `maxwidth` gives Python's `title[-maxwidth:]` for `>` and `title[:maxwidth]` otherwise |
| PopupList.CList.RefreshDisplay | modpython/vimuiex/popuplist.py:208-211 | both caches are dropped, nothing else changes, and the caches stay consistent |
| PopupList.CList.SetFilter | modpython/vimuiex/popuplist.py:213-216 | the same string changes nothing; a new one is stored and drops both caches |
| PopupList.CList.ApplyFilter | modpython/vimuiex/popuplist.py:233-246 | leaves the view equal to `Filtered(allitems, strFilter, filtersort)` and changes nothing else |
| PopupList.CList.SplitByRank | modpython/vimuiex/popuplist.py:238-244 | the loop builds exactly the head group and the tail group of the filter rule |
| PopupList.CList.Items | modpython/vimuiex/popuplist.py:223-226 | returns the filtered view, computing and caching it when missing |
| PopupList.CList.ItemCount | modpython/vimuiex/popuplist.py:228-231 | returns the length of the filtered view, which is then cached, so it equals `len(items)` |
| PopupList.CList.LoadUnicodeItems | modpython/vimuiex/popuplist.py:261-264 | one new, distinct item per line, in order, and both caches dropped |
| PopupList.CList.LoadTestItems | modpython/vimuiex/popuplist.py:266-268 | forty new, distinct items with the test lines in order, and both caches dropped |
| PopupList.CList.GetTrueIndex | modpython/vimuiex/popuplist.py:270-275 | -1 exactly when the view is not computed or the index is out of range; otherwise the first position in `allitems` of the very item shown there |
| PopupList.CList.ExpandVimCommand | modpython/vimuiex/popuplist.py:277-279 | the command with `replace()` applied to every `{{i}}` and the decimal true index (pinned down by `ExpandSplits` and `ReplaceAbsent`); no `{{i}}` is left, a command without one is unchanged, and the text before the first one is kept |
| PopupList.CList.LimitSize | modpython/vimuiex/popuplist.py:288-296 | the minimum size is shrunk to the room and the result is `Layout.LimitSize` |
| PopupList.CList.LimitPosition | modpython/vimuiex/popuplist.py:298-308 | the result is `Layout.LimitPosition` against the given size, or the current one when none is given |
| PopupList.CList.AutoSizeOf | modpython/vimuiex/popuplist.py:334-340 | the size the autosize letters ask for, equal to `Layout.AutoSize` |
| PopupList.CList.AutoResize | modpython/vimuiex/popuplist.py:334-341 | the size becomes the automatic size limited to the room |
| PopupList.CList.AlignedStart | modpython/vimuiex/popuplist.py:348-353 | one axis of the alignment, equal to `Layout.AlignAxis` |
| PopupList.CList.AlignPosition | modpython/vimuiex/popuplist.py:343-354 | the position becomes the aligned position limited to the room |
| PopupList.CList.Relayout | modpython/vimuiex/popuplist.py:332-357 | the size is recomputed only with `size` and an autosize string; the position only with `position` and an alignment, after which the box lies inside the room; nothing else changes |
| PopupList.CList.FillInitialGeometry | modpython/vimuiex/popuplist.py:360-364 | a missing size becomes half the room and a missing position a quarter of the room in from the offset; present ones and everything else are kept |
| PopupList.CList.CalcInitialPosition | modpython/vimuiex/popuplist.py:359-365 | a missing size becomes half the room, a missing position a quarter of the room in from the offset, then a full relayout; the minimum size is shrunk to the room when there is an autosize string and kept otherwise |
| PopupList.CList.DropLetters | modpython/vimuiex/popuplist.py:189-190 | replacing each letter away in turn removes exactly the letters given, as `Layout.Drop` does |
| PopupList.CList.Realign | modpython/vimuiex/popuplist.py:186-193 | the alignment becomes `Realigned(old, remove, add)`, then the position is laid out again |
| PopupList.CList.DoWinposCmd | modpython/vimuiex/popuplist.py:185-200 | each alignment command edits the alignment as `WinposAlign` says and re-places the box; any other command changes nothing |
| PopupList.CList.DoCommand | modpython/vimuiex/popuplist.py:177-183 | `list:` yields the stripped remainder; `winpos:` yields "" and, for an alignment command, leaves the alignment, the aligned and limited position, and the unchanged size and minimum size that `DoWinposCmd` gives; `vim:` yields ""; anything else comes back unchanged |
| PopupList.CList.CalcFirstColumnWidth | modpython/vimuiex/popuplist.py:310-322 | the scan with its early exit returns `FirstColumnWidth(items, ColumnCap(textwidth, maxColumnWidth))` |
| PopupList.CList.ComputeFirstColumnWidth | modpython/vimuiex/popuplist.py:326-330 | the width over the filtered view is cached and returned when positive, and `None` is returned otherwise; the view is computed on the way |
| PopupList.CList.GetFirstColumnWidth | modpython/vimuiex/popuplist.py:324-330 | `None` without `c`; the cached width when there is one; otherwise the width over the filtered view, cached and returned only when positive |

## Left out

- Everything that talks to the editor or a terminal is not part of this model. The screen size is a parameter. `loadBufferItems` and `loadVimItems` read lines from the editor and then behave like `loadUnicodeItems`. The editor commands in `process` are left out too.
- The drawing backend is not part of this model: `importListboxImpl`, `process`, the modal loop, and the `redraw`/`refreshDisplay`/`relayout`/`setCurIndex` calls on the backend. The border it selects is a parameter.
- `log` writes a file and is left out.
- The keymaps (`initKeymaps`) are left out, because the keymap class is not part of this model. The same goes for the mode and quick-char state machine, which lives in the backend.
- `getExtraPrompt` returns "" and has no model.
- `Layout.ColumnCap`: `maxColumnWidth` is a float (0.3). The model takes it as whole per cent (30), so float rounding of `textwidth * mwf` is not modelled.
- `PyStr.Lower` and `PyStr.IsSpace`: `lower()` folds ASCII letters only, and `rstrip()`/`strip()` treat ASCII 9-13 and 28-32 as white space, as Python 2 unicode strings do. Python 2 byte strings, such as the command names that `doCommand` strips, do not count 28-31 as white space; the model does not tell the two apart. Unicode case mapping and white space are not modelled.
- `PopupList.CList.SetFilter`: the filter is a string. Python's `setFilter(None)` stores `None`, which the view treats as empty; that is not modelled.
- `PyStr.Replace` is defined for non-empty patterns only, which is all the code uses.
- `PopupList.CList.Relayout`, `PopupList.CList.Realign`, `PopupList.CList.DoWinposCmd`, `PopupList.CList.DoCommand` (for a `winpos:` alignment command) and `PopupList.CList.LimitPosition` require a size (and all but the last a position) where the code unpacks them. Called earlier, Python raises `TypeError`; the model does not.
- `PopupList.CList.GetFirstColumnWidth` requires a size when it has to fall back on the current width; the code would raise there too.
- `doListCommand` is a hook that returns its argument; it is modelled as such.
- `PopupList.CList.LimitSize` follows the corrected lines 290-291 of "## Findings": it shrinks `minSize` to the room, where the code raises `TypeError`. `AutoResize`, `Relayout` and `CalcInitialPosition` inherit this.
- `PopupList.CList.LimitPosition` follows the corrected line 307 of "## Findings": the vertical pull-back adds the top offset, where the code adds the left one. `AlignPosition`, `Relayout`, `Realign`, `DoWinposCmd`, `DoCommand` and `CalcInitialPosition` inherit this.
- `PopupList.CList.GetFirstColumnWidth` follows the corrected line 325 of "## Findings": with no autosize string it returns `None`, where the code raises `AttributeError`.

## Findings

| source | as written | input that shows it | evidently intended | confidence | as-written member | corrected member |
|---|---|---|---|---|---|---|
| modpython/vimuiex/popuplist.py:307 | the bottom pull-back sets `y = h - sy + l`, adding the left offset | border (12, 4), screen 80x24, size (16, 20), position (10, 10): `y` becomes 6 and the box ends at line 24 of a 20-line room | `y = h - sy + t`, so that `y - t + sy <= h` | high (not executed) | Layout.LimitPositionAsWritten, Layout.CursesBorderOverflow | Layout.LimitPosition |
| modpython/vimuiex/popuplist.py:290-291 | `self.minSize[0] = w` assigns into the tuple `(16, 4)` and raises `TypeError` | screen 14 columns wide with border (2, 2): the room is 12 columns, less than 16 | shrink the minimum size to the room, then clamp | high (not executed) | Layout.LimitSizeAsWritten, Layout.NarrowScreenRaises | Layout.LimitSize, Layout.FitMinSize |
| modpython/vimuiex/popuplist.py:325 | `self.autosize.lower()` is called when `autosize` is `None`, the constructor's default | a list built without an autosize string, asked for its first-column width | no autosize string asks for no first column: return `None` | medium (not executed) | Layout.WantsColumnAsWritten | Layout.WantsColumn |
