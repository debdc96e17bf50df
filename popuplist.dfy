/**
 * The popup list controller `CList`: its options, the items it shows, the
 * lazily computed filtered view and first-column width, and the commands
 * that move and resize it.
 *
 * The drawing backend is not part of this model: the calls the class makes
 * into it (redraw, refresh, relayout) change nothing here.
 */
module PopupList {
  import opened Wrappers
  import opened PyStr
  import opened Items
  import opened Layout

  /** The placeholder in a command that stands for the current item's index in `allitems`. */
  const IndexPlaceholder: string := "{{i}}"

  /** The lines `loadTestItems` fills the list with: four lines, ten times over. */
  function TestLines(): (r: seq<string>)
    ensures |r| == 40
    ensures forall i :: 0 <= i < |r| ==>
      r[i] == [Repeat("one", 14), Repeat("two", 13), Repeat("three", 12), Repeat("four", 11)][i % 4]
  {
    RepeatAt([Repeat("one", 14), Repeat("two", 13), Repeat("three", 12), Repeat("four", 11)], 10);
    Repeat([Repeat("one", 14), Repeat("two", 13), Repeat("three", 12), Repeat("four", 11)], 10)
  }

  /** What `doCommand` makes of a command, by its prefix: the stripped remainder of a `list:` or `winpos:` command. */
  datatype CommandKind = ListCommand(arg: string) | WinposCommand(arg: string) | VimCommand | OtherCommand

  /**
   * The prefix test of `doCommand`: `list:` is tested first, then
   * `winpos:`, then `vim:`; the three prefixes exclude one another.
   */
  function ParseCommand(cmd: string): (k: CommandKind)
    ensures k.ListCommand? <==> StartsWith(cmd, "list:")
    ensures k.WinposCommand? <==> StartsWith(cmd, "winpos:")
    ensures k.VimCommand? <==> StartsWith(cmd, "vim:")
    ensures k.ListCommand? ==> k.arg == Strip(cmd[5..])
    ensures k.WinposCommand? ==> k.arg == Strip(cmd[7..])
  {
    assert StartsWith(cmd, "list:") ==> cmd[0] == 'l';
    assert StartsWith(cmd, "winpos:") ==> cmd[0] == 'w';
    assert StartsWith(cmd, "vim:") ==> cmd[0] == 'v';
    if StartsWith(cmd, "list:") then ListCommand(Strip(cmd[5..]))
    else if StartsWith(cmd, "winpos:") then WinposCommand(Strip(cmd[7..]))
    else if StartsWith(cmd, "vim:") then VimCommand
    else OtherCommand
  }

  /** The hook `doListCommand`: a `list:` command is handed back unchanged. */
  function DoListCommand(cmd: string, curindex: int): (r: string)
    ensures r == cmd
  {
    cmd
  }

  /** `{{i}}` cannot overlap itself, so `replace` takes its occurrences one after another. */
  lemma PlaceholderUnbordered()
    ensures Unbordered(IndexPlaceholder)
  {
    forall j | 0 < j < |IndexPlaceholder|
      ensures IndexPlaceholder[j..] != IndexPlaceholder[..|IndexPlaceholder| - j]
    {
      assert IndexPlaceholder[j..][|IndexPlaceholder| - j - 1] == '}';
      assert IndexPlaceholder[..|IndexPlaceholder| - j][|IndexPlaceholder| - j - 1] == IndexPlaceholder[|IndexPlaceholder| - j - 1];
    }
  }

  /**
   * Expanding a command: text without `{{i}}`, then `{{i}}`, then the rest
   * becomes the text, the index and the expanded rest, so every `{{i}}` is
   * replaced and the text between them is kept.
   */
  lemma ExpandSplits(a: string, b: string, index: string)
    requires !Occurs(a, IndexPlaceholder)
    ensures Replace(a + IndexPlaceholder + b, IndexPlaceholder, index) == a + index + Replace(b, IndexPlaceholder, index)
  {
    PlaceholderUnbordered();
    ReplaceAfterFree(a, IndexPlaceholder, b, index);
  }

  class CList {
    var title: string
    var titleAlign: string
    var position: Option<Pair>
    var align: Option<string>
    var size: Option<Pair>
    var minSize: Pair
    var autosize: Option<string>
    /** The cached width of the first column; `None` until computed or when it came out 0. */
    var firstColumnWidth: Option<int>
    /** `maxColumnWidth`, the fraction of the text width the first column may take, in per cent. */
    var maxColumnWidth: int
    var allitems: seq<ListItem>
    var strFilter: string
    /** The cached filtered view; `None` until it is next asked for. */
    var items: Option<seq<ListItem>>
    var sort: bool
    var filtersort: bool
    var quickCharAutoSelect: string
    var cmdCancel: string
    var cmdAccept: string

    /**
     * The caches agree with the state: a computed view is the filtered
     * list, and a cached column width is positive and only present while
     * a view is cached.
     */
    ghost predicate Valid()
      reads this
    {
      (items.Some? ==> items.value == Filtered(allitems, strFilter, filtersort)) &&
      (firstColumnWidth.Some? ==> items.Some? && firstColumnWidth.value > 0)
    }

    /** The options that no operation of the model changes. */
    twostate predicate SameOptions()
      reads this
    {
      title == old(title) && titleAlign == old(titleAlign) && autosize == old(autosize) &&
      maxColumnWidth == old(maxColumnWidth) && sort == old(sort) && filtersort == old(filtersort) &&
      quickCharAutoSelect == old(quickCharAutoSelect) && cmdCancel == old(cmdCancel) && cmdAccept == old(cmdAccept)
    }

    /** The geometry is untouched. */
    twostate predicate SameGeometry()
      reads this
    {
      position == old(position) && align == old(align) && size == old(size) && minSize == old(minSize)
    }

    /** The contents and the caches are untouched. */
    twostate predicate SameContents()
      reads this
    {
      allitems == old(allitems) && strFilter == old(strFilter) && items == old(items) &&
      firstColumnWidth == old(firstColumnWidth)
    }

    constructor (title: Option<string>, position: Option<Pair>, align: Option<string>, size: Option<Pair>, autosize: Option<string>)
      ensures this.title == (if title.None? then "" else title.value) && titleAlign == "<"
      ensures this.position == position && this.align == align && this.size == size && this.autosize == autosize
      ensures minSize == (16, 4) && firstColumnWidth == None && maxColumnWidth == 30
      ensures allitems == [] && strFilter == "" && items == None && sort && filtersort
      ensures quickCharAutoSelect == "accept" && cmdCancel == "" && cmdAccept == ""
      ensures Valid()
    {
      this.title := if title.None? then "" else title.value;
      titleAlign := "<";
      this.position := position;
      this.align := align;
      this.size := size;
      minSize := (16, 4);
      this.autosize := autosize;
      firstColumnWidth := None;
      maxColumnWidth := 30;
      allitems := [];
      strFilter := "";
      items := None;
      sort := true;
      filtersort := true;
      quickCharAutoSelect := "accept";
      cmdCancel := "";
      cmdAccept := "";
    }

    /**
     * `getTitle`: the title when it is shorter than `maxwidth`; otherwise
     * `maxwidth` characters of it, the start kept for `<` and the end for
     * `>`, three of them given to `...` when `maxwidth` exceeds 12.
     */
    function GetTitle(maxwidth: int): (r: string)
      reads this
      ensures |title| < maxwidth ==> r == title
      ensures 1 <= maxwidth <= |title| ==> |r| == maxwidth
      ensures 12 < maxwidth <= |title| && titleAlign == ">" ==> r == "..." + title[|title| - (maxwidth - 3)..]
      ensures 12 < maxwidth <= |title| && titleAlign != ">" ==> r == title[..maxwidth - 3] + "..."
      ensures 1 <= maxwidth <= 12 && maxwidth <= |title| && titleAlign == ">" ==> r == title[|title| - maxwidth..]
      ensures 1 <= maxwidth <= 12 && maxwidth <= |title| && titleAlign != ">" ==> r == title[..maxwidth]
      ensures maxwidth == 0 ==> r == (if titleAlign == ">" then title else "")
      ensures maxwidth < 0 ==> r == (if titleAlign == ">" then SliceFrom(title, -maxwidth) else SliceTo(title, maxwidth))
    {
      if |title| < maxwidth then title
      else
        var width := if maxwidth > 12 then maxwidth - 3 else maxwidth;
        var dots := if maxwidth > 12 then "..." else "";
        if titleAlign == ">" then dots + SliceFrom(title, -width) else SliceTo(title, width) + dots
    }

    /** `refreshDisplay`: both caches are dropped. */
    method RefreshDisplay()
      modifies this
      ensures items == None && firstColumnWidth == None
      ensures allitems == old(allitems) && strFilter == old(strFilter)
      ensures SameOptions() && SameGeometry()
      ensures Valid()
    {
      items := None;
      firstColumnWidth := None;
    }

    /** `setFilter`: the same filter string changes nothing; a new one is stored and drops both caches. */
    method SetFilter(filter: string)
      requires Valid()
      modifies this
      ensures filter == old(strFilter) ==> strFilter == old(strFilter) && SameContents()
      ensures filter != old(strFilter) ==> strFilter == filter && items == None && firstColumnWidth == None
      ensures allitems == old(allitems)
      ensures SameOptions() && SameGeometry()
      ensures Valid()
    {
      if filter == strFilter {
        return;
      }
      strFilter := filter;
      RefreshDisplay();
    }

    /**
     * `__applyFilter`: one pass over `allitems`, each match appended to the
     * head group or the tail group; the view is the heads followed by the
     * tails, or a copy of `allitems` for an empty filter.
     */
    method ApplyFilter()
      requires Valid()
      modifies this
      ensures items == Some(Filtered(allitems, strFilter, filtersort))
      ensures allitems == old(allitems) && strFilter == old(strFilter) && firstColumnWidth == old(firstColumnWidth)
      ensures SameOptions() && SameGeometry()
      ensures Valid()
    {
      if strFilter == "" {
        items := Some(allitems);
        return;
      }
      var inhead, intail := SplitByRank(allitems, Lower(strFilter), filtersort);
      items := Some(inhead + intail);
    }

    /**
     * The loop of `__applyFilter`: an item whose filter text starts with
     * `filt` goes to the head group when `sorted`, any other match to the
     * tail group, each group in the order of `all`.
     */
    static method SplitByRank(all: seq<ListItem>, filt: string, sorted: bool) returns (inhead: seq<ListItem>, intail: seq<ListItem>)
      ensures inhead == Group(all, filt, sorted, Head)
      ensures intail == Group(all, filt, sorted, Tail)
    {
      var startat := 0;
      inhead, intail := [], [];
      var k := 0;
      while k < |all|
        invariant 0 <= k <= |all|
        invariant inhead == Group(all[..k], filt, sorted, Head)
        invariant intail == Group(all[..k], filt, sorted, Tail)
      {
        var i := all[k];
        GroupSnoc(all, k, filt, sorted, Head);
        GroupSnoc(all, k, filt, sorted, Tail);
        var pos := Find(Lower(i.FilterText()), filt);
        if pos < 0 {
        } else if pos == startat && sorted {
          inhead := inhead + [i];
        } else {
          intail := intail + [i];
        }
        k := k + 1;
      }
      assert all[..k] == all;
    }

    /** The `items` property: the filtered view, computed first when it is not cached. */
    method Items() returns (r: seq<ListItem>)
      requires Valid()
      modifies this
      ensures r == Filtered(allitems, strFilter, filtersort) && items == Some(r)
      ensures allitems == old(allitems) && strFilter == old(strFilter) && firstColumnWidth == old(firstColumnWidth)
      ensures SameOptions() && SameGeometry()
      ensures Valid()
    {
      if items.None? {
        ApplyFilter();
      }
      r := items.value;
    }

    /** The `itemCount` property: the length of the filtered view, computed first when it is not cached. */
    method ItemCount() returns (n: int)
      requires Valid()
      modifies this
      ensures n == |Filtered(allitems, strFilter, filtersort)| && items.Some? && n == |items.value|
      ensures allitems == old(allitems) && strFilter == old(strFilter) && firstColumnWidth == old(firstColumnWidth)
      ensures SameOptions() && SameGeometry()
      ensures Valid()
    {
      if items.None? {
        ApplyFilter();
      }
      n := |items.value|;
    }

    /** `loadUnicodeItems`: one new item per line, in order, and both caches dropped. */
    method LoadUnicodeItems(lines: seq<string>)
      modifies this
      ensures |allitems| == |lines|
      ensures forall i :: 0 <= i < |lines| ==> allitems[i].text == lines[i] && fresh(allitems[i])
      ensures forall i, j :: 0 <= i < j < |allitems| ==> allitems[i] != allitems[j]
      ensures items == None && firstColumnWidth == None && strFilter == old(strFilter)
      ensures SameOptions() && SameGeometry()
      ensures Valid()
    {
      var loaded: seq<ListItem> := [];
      var k := 0;
      while k < |lines|
        invariant 0 <= k <= |lines| && |loaded| == k
        invariant forall i :: 0 <= i < k ==> loaded[i].text == lines[i] && fresh(loaded[i])
        invariant forall i, j :: 0 <= i < j < k ==> loaded[i] != loaded[j]
        modifies {}
      {
        var item := new ListItem(lines[k]);
        loaded := loaded + [item];
        k := k + 1;
      }
      allitems := loaded;
      RefreshDisplay();
    }

    /** `loadTestItems`: forty new, distinct items cycling through four long test lines. */
    method LoadTestItems()
      modifies this
      ensures |allitems| == 40
      ensures forall i :: 0 <= i < 40 ==> allitems[i].text == TestLines()[i] && fresh(allitems[i])
      ensures forall i, j :: 0 <= i < j < |allitems| ==> allitems[i] != allitems[j]
      ensures items == None && firstColumnWidth == None && strFilter == old(strFilter)
      ensures SameOptions() && SameGeometry()
      ensures Valid()
    {
      LoadUnicodeItems(TestLines());
    }

    /**
     * `getTrueIndex`: -1 when the view is not computed or the index lies
     * outside it; otherwise the first position in `allitems` of the very
     * item shown at that index.
     */
    function GetTrueIndex(filteredIndex: int): (i: int)
      reads this
      requires Valid()
      ensures i == -1 <==> items.None? || filteredIndex < 0 || filteredIndex >= |items.value|
      ensures i != -1 ==> 0 <= i < |allitems| && allitems[i] == items.value[filteredIndex]
      ensures i != -1 ==> forall j :: 0 <= j < i ==> allitems[j] != allitems[i]
    {
      var nitems := if items.Some? then |items.value| else 0;
      if filteredIndex < 0 || filteredIndex >= nitems then -1
      else
        FilteredMembers(allitems, strFilter, filtersort);
        assert items.value[filteredIndex] in items.value;
        IndexOf(allitems, items.value[filteredIndex])
    }

    /**
     * `expandVimCommand`: every `{{i}}` replaced by the decimal true index of
     * the current item, as `replace` does (see `ExpandSplits`). None is left,
     * a command without one is unchanged, and the text before the first one
     * is kept as it was.
     */
    function ExpandVimCommand(command: string, curindex: int): (r: string)
      reads this
      requires Valid()
      ensures r == Replace(command, IndexPlaceholder, Decimal(GetTrueIndex(curindex)))
      ensures !Occurs(r, IndexPlaceholder)
      ensures !Occurs(command, IndexPlaceholder) ==> r == command
      ensures var k := Find(command, IndexPlaceholder);
        var index := Decimal(GetTrueIndex(curindex));
        k >= 0 ==> k + |index| <= |r| && r[..k] == command[..k] && r[k..k + |index|] == index
    {
      var index := Decimal(GetTrueIndex(curindex));
      assert forall j :: 0 <= j < |index| ==> index[j] !in IndexPlaceholder;
      ReplaceLeavesNone(command, IndexPlaceholder, index);
      var r := Replace(command, IndexPlaceholder, index);
      var k := Find(command, IndexPlaceholder);
      assert k >= 0 ==> r[..k] == command[..k] && r[k..k + |index|] == index;
      r
    }

    /**
     * `_limitSize`: the minimum size is shrunk to the room where it does not
     * fit, then the size is clamped between the minimum and the room.
     */
    method LimitSize(sx: int, sy: int, screen: Pair, border: Pair) returns (r: Pair)
      modifies this
      ensures minSize == FitMinSize(old(minSize), MaxSize(screen, border))
      ensures r == Layout.LimitSize((sx, sy), old(minSize), MaxSize(screen, border))
      ensures allitems == old(allitems) && strFilter == old(strFilter) && items == old(items)
      ensures firstColumnWidth == old(firstColumnWidth)
      ensures position == old(position) && align == old(align) && size == old(size)
      ensures SameOptions()
    {
      var (w, h) := MaxSize(screen, border);
      if minSize.0 > w {
        minSize := (w, minSize.1);
      }
      if minSize.1 > h {
        minSize := (minSize.0, h);
      }
      var x, y := sx, sy;
      if x < minSize.0 {
        x := minSize.0;
      }
      if y < minSize.1 {
        y := minSize.1;
      }
      if x > w {
        x := w;
      }
      if y > h {
        y := h;
      }
      r := (x, y);
    }

    /** `_limitPosition`: the box kept inside the room, against `size` or, when none is given, the current size. */
    method LimitPosition(x: int, y: int, size: Option<Pair>, screen: Pair, border: Pair) returns (r: Pair)
      requires size.Some? || this.size.Some?
      ensures r == Layout.LimitPosition((x, y), if size.Some? then size.value else this.size.value, MaxSize(screen, border), border)
    {
      var (w, h) := MaxSize(screen, border);
      var (sx, sy) := if size.None? then this.size.value else size.value;
      var l := border.0 / 2;
      var t := border.1 / 2;
      var px, py := x, y;
      if px < l {
        px := l;
      }
      if py < t {
        py := t;
      }
      if px - l + sx > w {
        px := w - sx + l;
      }
      if py - t + sy > h {
        py := h - sy + t;
      }
      r := (px, py);
    }

    /** The size part of `relayout`: the automatic size, limited to the room. */
    method AutoResize(screen: Pair, border: Pair)
      requires autosize.Some? && size.Some?
      modifies this
      ensures SameOptions()
      ensures size == Some(Layout.LimitSize(AutoSize(autosize.value, old(size).value, allitems), old(minSize), MaxSize(screen, border)))
      ensures minSize == FitMinSize(old(minSize), MaxSize(screen, border))
      ensures position == old(position) && align == old(align) && SameContents()
    {
      var wanted := AutoSizeOf(autosize.value, size.value, allitems);
      var limited := LimitSize(wanted.0, wanted.1, screen, border);
      size := Some(limited);
    }

    /** The automatic size of `relayout`, before it is limited to the room. */
    static method AutoSizeOf(autosize: string, size: Pair, allitems: seq<ListItem>) returns (r: Pair)
      ensures r == AutoSize(autosize, size, allitems)
    {
      var (sx, sy) := size;
      var a := Lower(autosize);
      if Find(a, "v") >= 0 {
        sy := |allitems| + 2;
      }
      if Find(a, "h") >= 0 {
        if |allitems| < 1 {
          sx := 0;
        } else {
          sx := Longest(allitems) + 2;
        }
      }
      r := (sx, sy);
    }

    /**
     * One axis of the alignment in `relayout`: the offset for the near-edge
     * letter, else the far edge of the room for the far-edge letter, else
     * the centre.
     */
    static method AlignedStart(a: string, near: char, far: char, extent: int, lo: int, room: int) returns (v: int)
      ensures v == AlignAxis(a, near, far, extent, lo, room)
    {
      if Find(a, [near]) >= 0 {
        v := lo;
      } else if Find(a, [far]) >= 0 {
        v := room - extent + lo;
      } else {
        v := (room - extent) / 2;
      }
    }

    /** The position part of `relayout`: the aligned position, limited to the room. */
    method AlignPosition(screen: Pair, border: Pair)
      requires align.Some? && size.Some? && position.Some?
      modifies this
      ensures SameOptions()
      ensures size == old(size) && minSize == old(minSize) && align == old(align) && SameContents()
      ensures var room := MaxSize(screen, border);
        position == Some(Layout.LimitPosition(Aligned(align.value, size.value, room, border), size.value, room, border))
    {
      var (w, h) := MaxSize(screen, border);
      var l := border.0 / 2;
      var t := border.1 / 2;
      var a := Lower(align.value);
      var y := AlignedStart(a, 't', 'b', size.value.1, t, h);
      var x := AlignedStart(a, 'l', 'r', size.value.0, l, w);
      var limited := LimitPosition(x, y, None, screen, border);
      position := Some(limited);
    }

    /**
     * `relayout`: with `doSize` and an autosize string the size becomes the
     * limited automatic size; with `doPosition` and an alignment the
     * position becomes the limited aligned position, and the box then lies
     * inside the room. Everything else is left alone.
     */
    method Relayout(doPosition: bool, doSize: bool, screen: Pair, border: Pair)
      requires doSize && autosize.Some? ==> size.Some?
      requires doPosition && align.Some? ==> size.Some? && position.Some?
      modifies this
      ensures SameOptions() && align == old(align) && SameContents()
      ensures doSize && autosize.Some? ==>
        size == Some(Layout.LimitSize(AutoSize(autosize.value, old(size).value, allitems), old(minSize), MaxSize(screen, border))) &&
        minSize == FitMinSize(old(minSize), MaxSize(screen, border))
      ensures !(doSize && autosize.Some?) ==> size == old(size) && minSize == old(minSize)
      ensures doPosition && align.Some? ==>
        var room := MaxSize(screen, border);
        position == Some(Layout.LimitPosition(Aligned(align.value, size.value, room, border), size.value, room, border)) &&
        position.value.0 - Offset(border).0 + size.value.0 <= room.0 &&
        position.value.1 - Offset(border).1 + size.value.1 <= room.1
      ensures !(doPosition && align.Some?) ==> position == old(position)
    {
      if doSize && autosize.Some? {
        AutoResize(screen, border);
      }
      if doPosition && align.Some? {
        AlignPosition(screen, border);
      }
    }

    /**
     * `_calcInitialPosition`: a missing size becomes half the room, a
     * missing position puts the box a quarter of the room in from the
     * border offset, and then the box is laid out in full.
     */
    method CalcInitialPosition(screen: Pair, border: Pair)
      modifies this
      ensures SameOptions() && align == old(align) && SameContents()
      ensures var room := MaxSize(screen, border);
        var start := if old(size).None? then (room.0 / 2, room.1 / 2) else old(size).value;
        var sized := if autosize.Some? then Layout.LimitSize(AutoSize(autosize.value, start, allitems), old(minSize), room) else start;
        size == Some(sized)
      ensures var room := MaxSize(screen, border);
        var placed := if old(position).None? then (Offset(border).0 + room.0 / 4, Offset(border).1 + room.1 / 4) else old(position).value;
        align.None? ==> position == Some(placed)
      ensures var room := MaxSize(screen, border);
        align.Some? ==> position == Some(Layout.LimitPosition(Aligned(align.value, size.value, room, border), size.value, room, border))
      ensures minSize == if autosize.Some? then FitMinSize(old(minSize), MaxSize(screen, border)) else old(minSize)
    {
      FillInitialGeometry(screen, border);
      Relayout(true, true, screen, border);
    }

    /** The first half of `_calcInitialPosition`: a missing size and a missing position get their defaults. */
    method FillInitialGeometry(screen: Pair, border: Pair)
      modifies this
      ensures SameOptions() && SameContents() && align == old(align) && minSize == old(minSize)
      ensures var room := MaxSize(screen, border);
        size == Some(if old(size).None? then (room.0 / 2, room.1 / 2) else old(size).value)
      ensures var room := MaxSize(screen, border);
        position == Some(if old(position).None? then (Offset(border).0 + room.0 / 4, Offset(border).1 + room.1 / 4) else old(position).value)
    {
      var (w, h) := MaxSize(screen, border);
      if size.None? {
        size := Some((w / 2, h / 2));
      }
      var l := border.0 / 2;
      var t := border.1 / 2;
      if position.None? {
        position := Some((l + w / 4, t + h / 4));
      }
    }

    /** The replace loop of `_realign`: every letter of `chars` is replaced away in turn. */
    static method DropLetters(base: string, chars: string) returns (a: string)
      ensures a == Drop(base, chars)
    {
      a := base;
      DropNothing(base);
      var k := 0;
      while k < |chars|
        invariant 0 <= k <= |chars|
        invariant a == Drop(base, chars[..k])
      {
        ReplaceDrops(a, chars[k]);
        DropAppend(base, chars[..k], chars[k]);
        assert chars[..k + 1] == chars[..k] + [chars[k]];
        a := Replace(a, [chars[k]], "");
        k := k + 1;
      }
      assert chars[..k] == chars;
    }

    /**
     * `_realign`: the alignment is lower-cased (empty when there is none),
     * each letter of `remove` is replaced away, `add` is appended, and the
     * position is laid out again.
     */
    method Realign(remove: Option<string>, add: Option<string>, screen: Pair, border: Pair)
      requires size.Some? && position.Some?
      modifies this
      ensures SameOptions() && SameContents() && size == old(size) && minSize == old(minSize)
      ensures align == Some(Realigned(old(align), remove, add))
      ensures var room := MaxSize(screen, border);
        position == Some(Layout.LimitPosition(Aligned(align.value, size.value, room, border), size.value, room, border))
    {
      var base := if align.None? then "" else Lower(align.value);
      var a := base;
      if remove.Some? {
        a := DropLetters(base, remove.value);
      }
      if add.Some? {
        a := a + add.value;
      } else {
        assert a + "" == a;
      }
      assert a == Realigned(align, remove, add);
      align := Some(a);
      Relayout(true, false, screen, border);
    }

    /**
     * `doWinposCmd`: each alignment command edits the alignment letters and
     * lays the position out again; any other command does nothing.
     */
    method DoWinposCmd(cmd: string, screen: Pair, border: Pair)
      requires WinposEdit(cmd).Some? ==> size.Some? && position.Some?
      modifies this
      ensures WinposEdit(cmd).None? ==> SameGeometry()
      ensures WinposEdit(cmd).Some? ==>
        var room := MaxSize(screen, border);
        size == old(size) && minSize == old(minSize) &&
        align == WinposAlign(cmd, old(align)) &&
        position == Some(Layout.LimitPosition(Aligned(align.value, size.value, room, border), size.value, room, border))
      ensures allitems == old(allitems) && strFilter == old(strFilter)
      ensures items == old(items) && firstColumnWidth == old(firstColumnWidth)
      ensures SameOptions()
    {
      if cmd == "align-left" {
        Realign(Some("r"), Some("l"), screen, border);
      } else if cmd == "align-right" {
        Realign(Some("l"), Some("r"), screen, border);
      } else if cmd == "align-top" {
        Realign(Some("b"), Some("t"), screen, border);
      } else if cmd == "align-bottom" {
        Realign(Some("t"), Some("b"), screen, border);
      } else if cmd == "align-hceneter" {
        Realign(Some("lr"), Some(""), screen, border);
      } else if cmd == "align-vceneter" {
        Realign(Some("tb"), Some(""), screen, border);
      } else if cmd == "align-ceneter" {
        Realign(Some("lrtb"), Some(""), screen, border);
      }
    }

    /**
     * `doCommand`: a `list:` command yields its stripped remainder, a
     * `winpos:` command is carried out and yields "", a `vim:` command
     * yields "", and anything else comes back unchanged.
     */
    method DoCommand(cmd: string, curindex: int, screen: Pair, border: Pair) returns (r: string)
      requires ParseCommand(cmd).WinposCommand? && WinposEdit(ParseCommand(cmd).arg).Some? ==> size.Some? && position.Some?
      modifies this
      ensures SameOptions() && allitems == old(allitems) && strFilter == old(strFilter)
      ensures items == old(items) && firstColumnWidth == old(firstColumnWidth)
      ensures match ParseCommand(cmd)
        case ListCommand(arg) => r == arg && SameGeometry()
        case WinposCommand(arg) => r == "" && (WinposEdit(arg).None? ==> SameGeometry()) &&
          (WinposEdit(arg).Some? ==>
            var room := MaxSize(screen, border);
            align == WinposAlign(arg, old(align)) && size == old(size) && minSize == old(minSize) &&
            position == Some(Layout.LimitPosition(Aligned(align.value, size.value, room, border), size.value, room, border)))
        case VimCommand => r == "" && SameGeometry()
        case OtherCommand => r == cmd && SameGeometry()
    {
      r := cmd;
      if StartsWith(cmd, "list:") {
        r := DoListCommand(Strip(cmd[5..]), curindex);
      } else if StartsWith(cmd, "winpos:") {
        DoWinposCmd(Strip(cmd[7..]), screen, border);
        r := "";
      } else if StartsWith(cmd, "vim:") {
        return "";
      }
    }

    /**
     * `calcFirstColumnWidth`: a scan of the items with a tab for the widest
     * first column, stopping at the cap; the result is the widest column
     * capped at `ColumnCap`, or 0 when no item has a tab.
     */
    method CalcFirstColumnWidth(textwidth: int, shown: seq<ListItem>) returns (wopt: int)
      ensures wopt == FirstColumnWidth(shown, ColumnCap(textwidth, maxColumnWidth))
    {
      var wmax := ColumnCap(textwidth, maxColumnWidth);
      wopt := 0;
      var k := 0;
      while k < |shown|
        invariant 0 <= k <= |shown|
        invariant wopt == Widest(shown[..k])
        invariant !AnyTab(shown[..k]) ==> wopt == 0
        invariant AnyTab(shown[..k]) ==> wopt <= wmax
      {
        var text := shown[k].DisplayText();
        WidestSnoc(shown, k);
        if Find(text, "\t") >= 0 {
          var w := |RStrip(text[..Find(text, "\t")])|;
          assert w == FieldWidth(shown[k]);
          if w > wopt {
            wopt := w;
          }
          if wopt > wmax {
            WidestGrows(shown, k + 1);
            wopt := wmax;
            break;
          }
        }
        k := k + 1;
      }
      assert shown[..|shown|] == shown;
    }

    /**
     * The computing half of `getFirstColumnWidth`: the width over the
     * filtered view, cached and returned only when positive.
     */
    method ComputeFirstColumnWidth(tw: int) returns (r: Option<int>)
      requires Valid() && firstColumnWidth.None?
      modifies this
      ensures SameOptions() && SameGeometry()
      ensures allitems == old(allitems) && strFilter == old(strFilter)
      ensures items == Some(Filtered(allitems, strFilter, filtersort))
      ensures var w := FirstColumnWidth(items.value, ColumnCap(tw, maxColumnWidth));
        (w > 0 ==> r == Some(w)) && (w <= 0 ==> r == None)
      ensures firstColumnWidth == r
      ensures Valid()
    {
      var shown := Items();
      var wopt := CalcFirstColumnWidth(tw, shown);
      if wopt > 0 {
        firstColumnWidth := Some(wopt);
        r := Some(wopt);
      } else {
        r := None;
      }
    }

    /**
     * `getFirstColumnWidth` with no autosize string read as asking for no
     * column: `None` unless the autosize string has `c`; the cached width
     * when there is one; otherwise the width computed over the filtered view
     * (against the current width when `textwidth` is missing or below 1),
     * cached and returned only when positive.
     */
    method GetFirstColumnWidth(textwidth: Option<int>) returns (r: Option<int>)
      requires Valid()
      requires WantsColumn(autosize) && firstColumnWidth.None? && (textwidth.None? || textwidth.value < 1) ==> size.Some?
      modifies this
      ensures SameOptions() && SameGeometry()
      ensures allitems == old(allitems) && strFilter == old(strFilter)
      ensures !WantsColumn(autosize) ==> r == None && SameContents()
      ensures WantsColumn(autosize) && old(firstColumnWidth).Some? ==> r == old(firstColumnWidth) && SameContents()
      ensures WantsColumn(autosize) && old(firstColumnWidth).None? ==>
        var tw := if textwidth.None? || textwidth.value < 1 then size.value.0 else textwidth.value;
        var w := FirstColumnWidth(Filtered(allitems, strFilter, filtersort), ColumnCap(tw, maxColumnWidth));
        items == Some(Filtered(allitems, strFilter, filtersort)) &&
        (w > 0 ==> r == Some(w) && firstColumnWidth == Some(w)) &&
        (w <= 0 ==> r == None && firstColumnWidth == None)
      ensures r.None? || r.value > 0
      ensures Valid()
    {
      if !WantsColumn(autosize) {
        return None;
      }
      if firstColumnWidth.Some? {
        return firstColumnWidth;
      }
      var tw := if textwidth.None? || textwidth.value < 1 then size.value.0 else textwidth.value;
      r := ComputeFirstColumnWidth(tw);
    }
  }
}
