/**
 * Screen geometry of the popup list: the room left on screen once the
 * border is taken off, the clamping of a size and of a position into that
 * room, the alignment letters, the `winpos:` edits of the alignment string,
 * automatic sizing and the width of the first (tab-delimited) column.
 *
 * The screen size `(columns, lines)` and the border `(width, height)` are
 * parameters; the program reads the first from the editor and the second
 * from a global set by the backend that draws the list.
 */
module Layout {
  import opened Wrappers
  import opened PyStr
  import opened Items

  /** A pair of screen quantities: (columns, lines), (width, height) or (x, y). */
  type Pair = (int, int)

  function Min(a: int, b: int): int {
    if a < b then a else b
  }

  /** `_maxSize`: the room for the list box, the screen less the border on each axis. */
  function MaxSize(screen: Pair, border: Pair): (r: Pair)
    ensures r.0 + border.0 == screen.0 && r.1 + border.1 == screen.1
  {
    (screen.0 - border.0, screen.1 - border.1)
  }

  /** The top-left offset of the box inside the border: half the border, rounded down. */
  function Offset(border: Pair): (r: Pair)
    ensures 2 * r.0 <= border.0 < 2 * r.0 + 2
    ensures 2 * r.1 <= border.1 < 2 * r.1 + 2
  {
    (border.0 / 2, border.1 / 2)
  }

  // ---------------------------------------------------------------------
  // Size limits (`_limitSize`)
  // ---------------------------------------------------------------------

  /** The minimum size, shrunk on each axis where it does not fit the room. */
  function FitMinSize(minSize: Pair, room: Pair): (m: Pair)
    ensures m.0 <= room.0 && m.1 <= room.1
    ensures m.0 <= minSize.0 && m.1 <= minSize.1
    ensures minSize.0 <= room.0 ==> m.0 == minSize.0
    ensures minSize.1 <= room.1 ==> m.1 == minSize.1
    ensures minSize.0 > room.0 ==> m.0 == room.0
    ensures minSize.1 > room.1 ==> m.1 == room.1
  {
    (Min(minSize.0, room.0), Min(minSize.1, room.1))
  }

  /** One axis of `_limitSize`: raise `v` to at least `lo`, then lower it to at most `hi`. */
  function ClampAxis(v: int, lo: int, hi: int): (r: int)
    ensures r <= hi
    ensures lo <= hi ==> lo <= r
    ensures lo <= v <= hi ==> r == v
    ensures v < lo ==> r == Min(lo, hi)
    ensures hi < v ==> r == hi
    ensures r == v || r == lo || r == hi
  {
    var raised := if v < lo then lo else v;
    if raised > hi then hi else raised
  }

  /**
   * `_limitSize` with the minimum size first shrunk to the room: the result
   * never exceeds the room, never falls below the (shrunk) minimum, and a
   * size already in range is kept.
   */
  function LimitSize(size: Pair, minSize: Pair, room: Pair): (r: Pair)
    ensures r.0 <= room.0 && r.1 <= room.1
    ensures Min(minSize.0, room.0) <= r.0 && Min(minSize.1, room.1) <= r.1
    ensures minSize.0 <= size.0 <= room.0 ==> r.0 == size.0
    ensures minSize.1 <= size.1 <= room.1 ==> r.1 == size.1
    ensures size.0 < minSize.0 ==> r.0 == Min(minSize.0, room.0)
    ensures size.1 < minSize.1 ==> r.1 == Min(minSize.1, room.1)
    ensures room.0 < size.0 ==> r.0 == room.0
    ensures room.1 < size.1 ==> r.1 == room.1
  {
    var m := FitMinSize(minSize, room);
    (ClampAxis(size.0, m.0, room.0), ClampAxis(size.1, m.1, room.1))
  }

  /** Limiting twice, with the minimum size left behind by the first call, changes nothing. */
  lemma LimitSizeIdempotent(size: Pair, minSize: Pair, room: Pair)
    ensures FitMinSize(FitMinSize(minSize, room), room) == FitMinSize(minSize, room)
    ensures LimitSize(LimitSize(size, minSize, room), FitMinSize(minSize, room), room) == LimitSize(size, minSize, room)
  {
    var m := FitMinSize(minSize, room);
    var r := LimitSize(size, minSize, room);
    assert m.0 <= r.0 <= room.0 && m.1 <= r.1 <= room.1;
  }

  /**
   * `_limitSize` as written: the shrink step assigns into `minSize`, which
   * is a tuple, so the call raises `TypeError` exactly when the minimum size
   * does not fit the room; otherwise it agrees with `LimitSize`.
   */
  function LimitSizeAsWritten(size: Pair, minSize: Pair, room: Pair): (r: Result<Pair>)
    ensures r.Err? <==> minSize.0 > room.0 || minSize.1 > room.1
    ensures r.Ok? ==> r.value == LimitSize(size, minSize, room)
  {
    if minSize.0 > room.0 || minSize.1 > room.1 then
      Err(TypeError("'tuple' object does not support item assignment"))
    else
      Ok((ClampAxis(size.0, minSize.0, room.0), ClampAxis(size.1, minSize.1, room.1)))
  }

  /** A 14-column screen with the default border and minimum size (16, 4): the code as written raises. */
  lemma NarrowScreenRaises()
    ensures LimitSizeAsWritten((40, 10), (16, 4), MaxSize((14, 24), (2, 2))).Err?
    ensures LimitSize((40, 10), (16, 4), MaxSize((14, 24), (2, 2))) == (12, 10)
  {
  }

  // ---------------------------------------------------------------------
  // Position limits (`_limitPosition`)
  // ---------------------------------------------------------------------

  /**
   * One axis of `_limitPosition`: the coordinate is raised to the border
   * offset `lo`, then pulled back so that the far edge stays in the room.
   */
  function PlaceAxis(v: int, extent: int, lo: int, room: int): (r: int)
    ensures r - lo + extent <= room
    ensures extent <= room ==> lo <= r
    ensures lo <= v && v - lo + extent <= room ==> r == v
    ensures v < lo && extent <= room ==> r == lo
    ensures extent > room || (lo <= v && v - lo + extent > room) ==> r == room - extent + lo
  {
    var raised := if v < lo then lo else v;
    if raised - lo + extent > room then room - extent + lo else raised
  }

  /**
   * `_limitPosition` with the vertical pull-back measured from the top
   * offset: the box ends inside the room on both axes and starts no nearer
   * the screen edge than the offset whenever it fits.
   */
  function LimitPosition(pos: Pair, size: Pair, room: Pair, border: Pair): (r: Pair)
    ensures r.0 - Offset(border).0 + size.0 <= room.0
    ensures r.1 - Offset(border).1 + size.1 <= room.1
    ensures size.0 <= room.0 ==> Offset(border).0 <= r.0
    ensures size.1 <= room.1 ==> Offset(border).1 <= r.1
    ensures Offset(border).0 <= pos.0 && pos.0 - Offset(border).0 + size.0 <= room.0 ==> r.0 == pos.0
    ensures Offset(border).1 <= pos.1 && pos.1 - Offset(border).1 + size.1 <= room.1 ==> r.1 == pos.1
    ensures pos.0 < Offset(border).0 && size.0 <= room.0 ==> r.0 == Offset(border).0
    ensures pos.1 < Offset(border).1 && size.1 <= room.1 ==> r.1 == Offset(border).1
    ensures size.0 > room.0 || (Offset(border).0 <= pos.0 && pos.0 - Offset(border).0 + size.0 > room.0) ==>
      r.0 == room.0 - size.0 + Offset(border).0
    ensures size.1 > room.1 || (Offset(border).1 <= pos.1 && pos.1 - Offset(border).1 + size.1 > room.1) ==>
      r.1 == room.1 - size.1 + Offset(border).1
  {
    var off := Offset(border);
    (PlaceAxis(pos.0, size.0, off.0, room.0), PlaceAxis(pos.1, size.1, off.1, room.1))
  }

  /** A position already limited stays where it is. */
  lemma LimitPositionIdempotent(pos: Pair, size: Pair, room: Pair, border: Pair)
    ensures LimitPosition(LimitPosition(pos, size, room, border), size, room, border) == LimitPosition(pos, size, room, border)
  {
  }

  /**
   * `_limitPosition` as written: the vertical pull-back adds the left
   * offset instead of the top one. The horizontal axis is unaffected; the
   * bottom edge stays on screen when the left offset is at most the top
   * offset, and the result is the intended one when the two are equal.
   */
  function LimitPositionAsWritten(pos: Pair, size: Pair, room: Pair, border: Pair): (r: Pair)
    ensures r.0 == LimitPosition(pos, size, room, border).0
    ensures Offset(border).0 <= Offset(border).1 ==> r.1 - Offset(border).1 + size.1 <= room.1
    ensures Offset(border).0 == Offset(border).1 ==> r == LimitPosition(pos, size, room, border)
    ensures var y := if pos.1 < Offset(border).1 then Offset(border).1 else pos.1;
      y - Offset(border).1 + size.1 > room.1 ==> r.1 == room.1 - size.1 + Offset(border).0
    ensures var y := if pos.1 < Offset(border).1 then Offset(border).1 else pos.1;
      y - Offset(border).1 + size.1 <= room.1 ==> r.1 == y
  {
    var off := Offset(border);
    var x := PlaceAxis(pos.0, size.0, off.0, room.0);
    var y := if pos.1 < off.1 then off.1 else pos.1;
    (x, if y - off.1 + size.1 > room.1 then room.1 - size.1 + off.0 else y)
  }

  /**
   * With the curses border (12, 4) on an 80x24 screen, a full-height box
   * asked for at line 10 ends four lines below the room as written; the
   * corrected limit puts it at the top offset.
   */
  lemma CursesBorderOverflow()
    ensures var room := MaxSize((80, 24), (12, 4));
      room == (68, 20) &&
      LimitPositionAsWritten((10, 10), (16, 20), room, (12, 4)) == (10, 6) &&
      6 - Offset((12, 4)).1 + 20 == room.1 + 4 &&
      LimitPosition((10, 10), (16, 20), room, (12, 4)) == (10, 2)
  {
  }

  // ---------------------------------------------------------------------
  // Alignment (`relayout`, position part)
  // ---------------------------------------------------------------------

  /**
   * One axis of the alignment in `relayout`: the near-edge letter wins over
   * the far-edge letter, which puts the far edge of the box on the far edge
   * of the room; with neither letter the box is centred, the gap before it
   * never larger than the gap after it and short of it by at most one.
   */
  function AlignAxis(align: string, near: char, far: char, extent: int, lo: int, room: int): (r: int)
    ensures near in align ==> r == lo
    ensures near !in align && far in align ==> r - lo + extent == room
    ensures near !in align && far !in align ==> 0 <= (room - extent - r) - r <= 1
  {
    OccursChar(align, near);
    OccursChar(align, far);
    if Find(align, [near]) >= 0 then lo
    else if Find(align, [far]) >= 0 then room - extent + lo
    else (room - extent) / 2
  }

  /** The position an alignment string asks for, before it is limited: `t`/`b` vertically, `l`/`r` horizontally, case-insensitive. */
  function Aligned(align: string, size: Pair, room: Pair, border: Pair): (r: Pair)
    ensures var a := Lower(align); var off := Offset(border);
      ('l' in a ==> r.0 == off.0) &&
      ('l' !in a && 'r' in a ==> r.0 - off.0 + size.0 == room.0) &&
      ('l' !in a && 'r' !in a ==> 0 <= (room.0 - size.0 - r.0) - r.0 <= 1)
    ensures var a := Lower(align); var off := Offset(border);
      ('t' in a ==> r.1 == off.1) &&
      ('t' !in a && 'b' in a ==> r.1 - off.1 + size.1 == room.1) &&
      ('t' !in a && 'b' !in a ==> 0 <= (room.1 - size.1 - r.1) - r.1 <= 1)
  {
    var a := Lower(align);
    var off := Offset(border);
    (AlignAxis(a, 'l', 'r', size.0, off.0, room.0), AlignAxis(a, 't', 'b', size.1, off.1, room.1))
  }

  /** An edge alignment of a box that fits survives the position limit unchanged on that axis. */
  lemma EdgeAlignmentKept(align: string, size: Pair, room: Pair, border: Pair)
    requires size.0 <= room.0 && size.1 <= room.1
    ensures var a := Lower(align);
      var p := Aligned(align, size, room, border);
      var q := LimitPosition(p, size, room, border);
      (('l' in a || 'r' in a) ==> q.0 == p.0) && (('t' in a || 'b' in a) ==> q.1 == p.1)
  {
  }

  // ---------------------------------------------------------------------
  // Automatic size (`relayout`, size part)
  // ---------------------------------------------------------------------

  /** The length of the longest display text; 0 for no items. */
  function Longest(items: seq<ListItem>): (m: nat)
    ensures forall i :: 0 <= i < |items| ==> |items[i].DisplayText()| <= m
    ensures items != [] ==> exists i :: 0 <= i < |items| && |items[i].DisplayText()| == m
    ensures items == [] ==> m == 0
  {
    if items == [] then 0
    else
      var rest := Longest(items[..|items| - 1]);
      var last := |items[|items| - 1].DisplayText()|;
      if last > rest then last else rest
  }

  /** Whether a lower-cased option string holds the letter `c`. */
  predicate HasLetter(option: string, c: char) {
    Find(Lower(option), [c]) >= 0
  }

  lemma HasLetterIn(option: string, c: char)
    ensures HasLetter(option, c) <==> c in Lower(option)
  {
    OccursChar(Lower(option), c);
  }

  /**
   * The size `relayout` asks for before limiting: with `v` the height is the
   * number of items plus two, with `h` the width is the longest text plus two
   * (0 for no items); an axis without its letter keeps the current size.
   */
  function AutoSize(autosize: string, size: Pair, allitems: seq<ListItem>): (r: Pair)
    ensures var a := Lower(autosize);
      ('v' in a ==> r.1 == |allitems| + 2) && ('v' !in a ==> r.1 == size.1)
    ensures var a := Lower(autosize);
      ('h' in a && allitems == [] ==> r.0 == 0) &&
      ('h' in a && allitems != [] ==> (exists i :: 0 <= i < |allitems| && r.0 == |allitems[i].DisplayText()| + 2) &&
                                      forall i :: 0 <= i < |allitems| ==> |allitems[i].DisplayText()| + 2 <= r.0) &&
      ('h' !in a ==> r.0 == size.0)
  {
    HasLetterIn(autosize, 'v');
    HasLetterIn(autosize, 'h');
    var sy := if HasLetter(autosize, 'v') then |allitems| + 2 else size.1;
    var sx := if HasLetter(autosize, 'h') then (if |allitems| < 1 then 0 else Longest(allitems) + 2) else size.0;
    (sx, sy)
  }

  /** On an 80x24 screen with border (2, 2), autosize "V" over five items gives a height of 7. */
  lemma AutoHeightExample(items: seq<ListItem>, size: Pair)
    requires |items| == 5
    ensures LimitSize(AutoSize("V", size, items), (16, 4), MaxSize((80, 24), (2, 2))).1 == 7
  {
    assert Lower("V") == "v";
  }

  // ---------------------------------------------------------------------
  // Alignment edits (`doWinposCmd`, `_realign`)
  // ---------------------------------------------------------------------

  /** `s` without any of the characters in `chars`, the rest in order. */
  function Drop(s: string, chars: string): (r: string)
    ensures |r| <= |s|
  {
    if s == [] then []
    else (if s[0] in chars then [] else [s[0]]) + Drop(s[1..], chars)
  }

  /** A character survives `Drop` exactly when it was there and is not dropped. */
  lemma {:induction false} DropMembers(s: string, chars: string)
    ensures forall c :: c in Drop(s, chars) <==> c in s && c !in chars
    decreases |s|
  {
    if s != [] {
      DropMembers(s[1..], chars);
      assert s == [s[0]] + s[1..];
    }
  }

  /** Dropping no characters keeps the string. */
  lemma {:induction false} DropNothing(s: string)
    ensures Drop(s, []) == s
    decreases |s|
  {
    if s != [] {
      DropNothing(s[1..]);
      assert s == [s[0]] + s[1..];
    }
  }

  /** Dropping a character that does not occur keeps the string. */
  lemma {:induction false} DropAbsent(s: string, chars: string)
    requires forall i :: 0 <= i < |s| ==> s[i] !in chars
    ensures Drop(s, chars) == s
    decreases |s|
  {
    if s != [] {
      DropAbsent(s[1..], chars);
      assert s == [s[0]] + s[1..];
    }
  }

  /** Dropping distributes over concatenation. */
  lemma {:induction false} DropConcat(a: string, b: string, chars: string)
    ensures Drop(a + b, chars) == Drop(a, chars) + Drop(b, chars)
    decreases |a|
  {
    if a == [] {
      assert a + b == b;
    } else {
      var h: string := if a[0] in chars then [] else [a[0]];
      DropConcat(a[1..], b, chars);
      assert (a + b)[0] == a[0] && (a + b)[1..] == a[1..] + b;
      assert Drop(a + b, chars) == h + (Drop(a[1..], chars) + Drop(b, chars));
      assert Drop(a, chars) == h + Drop(a[1..], chars);
    }
  }

  /** Replacing a single character by the empty string drops it. */
  lemma {:induction false} ReplaceDrops(s: string, c: char)
    ensures Replace(s, [c], "") == Drop(s, [c])
    decreases |s|
  {
    var k := Find(s, [c]);
    if k < 0 {
      OccursChar(s, c);
      DropAbsent(s, [c]);
    } else {
      ReplaceDrops(s[k + 1..], c);
      assert forall i :: 0 <= i < k ==> s[i] != c by {
        forall i | 0 <= i < k ensures s[i] != c {
          assert !OccursAt(s, [c], i);
          assert s[i..i + 1] == [s[i]];
        }
      }
      assert s[k] == c by {
        assert s[k..k + 1] == [c];
      }
      DropAtFirst(s, c, k);
      assert Replace(s, [c], "") == s[..k] + Replace(s[k + 1..], [c], "") by {
        assert s[..k] + "" == s[..k];
      }
    }
  }

  /** Dropping `c` from a string whose first `c` is at `k`: the text before it stays whole. */
  lemma DropAtFirst(s: string, c: char, k: int)
    requires 0 <= k < |s| && s[k] == c
    requires forall i :: 0 <= i < k ==> s[i] != c
    ensures Drop(s, [c]) == s[..k] + Drop(s[k + 1..], [c])
  {
    var front := s[..k];
    var rest := s[k + 1..];
    var back := [c] + rest;
    assert Drop(front, [c]) == front by {
      assert forall i :: 0 <= i < |front| ==> front[i] !in [c];
      DropAbsent(front, [c]);
    }
    assert Drop(back, [c]) == Drop(rest, [c]) by {
      assert back[0] == c && back[1..] == rest;
    }
    SplitAround(s, k);
    DropConcat(front, back, [c]);
  }

  lemma SplitAround<T>(s: seq<T>, k: int)
    requires 0 <= k < |s|
    ensures s == s[..k] + ([s[k]] + s[k + 1..])
  {
  }

  /** Dropping the characters of `a` and then `c` drops the characters of `a + [c]`. */
  lemma {:induction false} DropAppend(s: string, a: string, c: char)
    ensures Drop(Drop(s, a), [c]) == Drop(s, a + [c])
    decreases |s|
  {
    if s != [] {
      DropAppend(s[1..], a, c);
      assert s[0] in a + [c] <==> s[0] in a || s[0] == c;
      if s[0] !in a {
        var rest := Drop(s[1..], a);
        var head: string := if s[0] == c then [] else [s[0]];
        assert Drop(s, a) == [s[0]] + rest;
        assert ([s[0]] + rest)[0] == s[0] && ([s[0]] + rest)[1..] == rest;
        assert Drop([s[0]] + rest, [c]) == head + Drop(rest, [c]);
        assert Drop(s, a + [c]) == head + Drop(s[1..], a + [c]);
      } else {
        assert Drop(s, a) == Drop(s[1..], a);
        assert Drop(s, a + [c]) == Drop(s[1..], a + [c]);
      }
    }
  }

  /**
   * The alignment string left by `_realign(remove, add)`: the old string
   * lower-cased (empty for none), without the letters of `remove`, followed
   * by `add`. A letter is in the result exactly when it is added or was
   * there and is not removed.
   */
  function Realigned(align: Option<string>, remove: Option<string>, add: Option<string>): (r: string)
    ensures forall c ::
      c in r <==> (align.Some? && c in Lower(align.value) && (remove.None? || c !in remove.value)) || (add.Some? && c in add.value)
    ensures add.None? || NoUpper(add.value) ==> NoUpper(r)
  {
    var base := if align.None? then "" else Lower(align.value);
    var kept := if remove.None? then base else Drop(base, remove.value);
    DropMembers(base, if remove.None? then "" else remove.value);
    assert forall i :: 0 <= i < |kept| ==> kept[i] in base;
    kept + (if add.None? then "" else add.value)
  }

  /** The alignment edit of a `winpos:` command: the letters removed and the letters added. */
  function WinposEdit(cmd: string): (r: Option<(string, string)>)
    ensures r.Some? <==> cmd in {"align-left", "align-right", "align-top", "align-bottom",
                                 "align-hceneter", "align-vceneter", "align-ceneter"}
    ensures r.Some? ==> NoUpper(r.value.1)
  {
    if cmd == "align-left" then Some(("r", "l"))
    else if cmd == "align-right" then Some(("l", "r"))
    else if cmd == "align-top" then Some(("b", "t"))
    else if cmd == "align-bottom" then Some(("t", "b"))
    else if cmd == "align-hceneter" then Some(("lr", ""))
    else if cmd == "align-vceneter" then Some(("tb", ""))
    else if cmd == "align-ceneter" then Some(("lrtb", ""))
    else None
  }

  /** The alignment a `winpos:` command leaves behind, when it is one of the alignment commands. */
  function WinposAlign(cmd: string, align: Option<string>): (r: Option<string>)
    ensures r.Some? <==> WinposEdit(cmd).Some?
    ensures r.Some? ==> forall c ::
      c in r.value <==> (Holds(align, c) && c !in WinposEdit(cmd).value.0) || c in WinposEdit(cmd).value.1
  {
    match WinposEdit(cmd)
    case None => None
    case Some(edit) => Some(Realigned(align, Some(edit.0), Some(edit.1)))
  }

  /** Whether the alignment `align` holds letter `c`, ignoring case. */
  predicate Holds(align: Option<string>, c: char) {
    align.Some? && c in Lower(align.value)
  }

  /**
   * The letters each `winpos:` alignment command leaves: an edge command
   * puts in its own letter, takes out the opposite one and keeps the other
   * axis; the centring commands take out both letters of their axes.
   */
  lemma WinposLetters(cmd: string, align: Option<string>)
    requires WinposEdit(cmd).Some?
    ensures var r := WinposAlign(cmd, align).value;
      NoUpper(r) &&
      (cmd == "align-left" ==> 'l' in r && 'r' !in r && ('t' in r <==> Holds(align, 't')) && ('b' in r <==> Holds(align, 'b'))) &&
      (cmd == "align-right" ==> 'r' in r && 'l' !in r && ('t' in r <==> Holds(align, 't')) && ('b' in r <==> Holds(align, 'b'))) &&
      (cmd == "align-top" ==> 't' in r && 'b' !in r && ('l' in r <==> Holds(align, 'l')) && ('r' in r <==> Holds(align, 'r'))) &&
      (cmd == "align-bottom" ==> 'b' in r && 't' !in r && ('l' in r <==> Holds(align, 'l')) && ('r' in r <==> Holds(align, 'r'))) &&
      (cmd == "align-hceneter" ==> 'l' !in r && 'r' !in r && ('t' in r <==> Holds(align, 't')) && ('b' in r <==> Holds(align, 'b'))) &&
      (cmd == "align-vceneter" ==> 't' !in r && 'b' !in r && ('l' in r <==> Holds(align, 'l')) && ('r' in r <==> Holds(align, 'r'))) &&
      (cmd == "align-ceneter" ==> 'l' !in r && 'r' !in r && 't' !in r && 'b' !in r)
  {
    var edit := WinposEdit(cmd).value;
    assert NoUpper(edit.1);
  }

  // ---------------------------------------------------------------------
  // First column (`calcFirstColumnWidth`)
  // ---------------------------------------------------------------------

  /** Whether an item's display text holds a tab. */
  predicate HasTab(x: ListItem) {
    Find(x.DisplayText(), "\t") >= 0
  }

  /** The width of an item's first column: the text before the first tab, trailing white space stripped. */
  function FieldWidth(x: ListItem): (w: nat)
    requires HasTab(x)
    ensures w <= Find(x.DisplayText(), "\t")
  {
    |RStrip(x.DisplayText()[..Find(x.DisplayText(), "\t")])|
  }

  /** Whether some item holds a tab. */
  predicate AnyTab(items: seq<ListItem>)
  {
    items != [] && (AnyTab(items[..|items| - 1]) || HasTab(items[|items| - 1]))
  }

  lemma {:induction false} AnyTabIff(items: seq<ListItem>)
    ensures AnyTab(items) <==> exists i :: 0 <= i < |items| && HasTab(items[i])
    decreases |items|
  {
    if items != [] {
      var front := items[..|items| - 1];
      AnyTabIff(front);
      if AnyTab(front) {
        var i :| 0 <= i < |front| && HasTab(front[i]);
        assert items[i] == front[i];
      }
      forall i | 0 <= i < |items| - 1 && HasTab(items[i]) ensures AnyTab(front) {
        assert front[i] == items[i];
      }
    }
  }

  /** The widest first column among the items with a tab; 0 when none has one. */
  function Widest(items: seq<ListItem>): nat
  {
    if items == [] then 0
    else
      var rest := Widest(items[..|items| - 1]);
      var last := items[|items| - 1];
      if HasTab(last) && FieldWidth(last) > rest then FieldWidth(last) else rest
  }

  /** `Widest` bounds every tabbed column, is attained by one when some item has a tab, and is 0 otherwise. */
  lemma {:induction false} WidestBounds(items: seq<ListItem>)
    ensures forall i :: 0 <= i < |items| && HasTab(items[i]) ==> FieldWidth(items[i]) <= Widest(items)
    ensures !AnyTab(items) ==> Widest(items) == 0
    ensures AnyTab(items) ==> exists i :: 0 <= i < |items| && HasTab(items[i]) && FieldWidth(items[i]) == Widest(items)
    decreases |items|
  {
    if items != [] {
      var front := items[..|items| - 1];
      WidestBounds(front);
      assert forall i :: 0 <= i < |items| - 1 ==> items[i] == front[i];
    }
  }

  /** One more item: the widest column so far, or the new item's when it is wider. */
  lemma WidestSnoc(items: seq<ListItem>, k: int)
    requires 0 <= k < |items|
    ensures Widest(items[..k + 1]) ==
      if HasTab(items[k]) && FieldWidth(items[k]) > Widest(items[..k]) then FieldWidth(items[k]) else Widest(items[..k])
    ensures AnyTab(items[..k + 1]) <==> AnyTab(items[..k]) || HasTab(items[k])
  {
    assert items[..k + 1][..k] == items[..k];
  }

  /** The widest first column never shrinks as items are added. */
  lemma {:induction false} WidestGrows(items: seq<ListItem>, n: nat)
    requires n <= |items|
    ensures Widest(items[..n]) <= Widest(items)
    ensures AnyTab(items[..n]) ==> AnyTab(items)
    decreases |items| - n
  {
    if n < |items| {
      WidestGrows(items, n + 1);
      assert items[..n + 1][..n] == items[..n];
    } else {
      assert items[..n] == items;
    }
  }

  /**
   * The column cap `int(textwidth * mwf)`, the fraction given in per cent
   * and clamped to 20..80, the product truncated toward zero.
   */
  function ColumnCap(textwidth: int, percent: int): (wmax: int)
    ensures var p := if percent < 20 then 20 else if percent > 80 then 80 else percent;
      (0 <= textwidth ==> 0 <= wmax && wmax * 100 <= textwidth * p < (wmax + 1) * 100) &&
      (textwidth < 0 ==> wmax <= 0 && (wmax - 1) * 100 < textwidth * p <= wmax * 100)
  {
    var p := if percent < 20 then 20 else if percent > 80 then 80 else percent;
    var product := textwidth * p;
    if product >= 0 then product / 100 else -((-product) / 100)
  }

  /**
   * The width `calcFirstColumnWidth` computes: 0 when no item has a tab,
   * otherwise the widest first column capped at `wmax`.
   */
  function FirstColumnWidth(items: seq<ListItem>, wmax: int): (r: int)
    ensures !AnyTab(items) ==> r == 0
    ensures AnyTab(items) ==> r <= wmax
  {
    if AnyTab(items) then Min(Widest(items), wmax) else 0
  }

  /**
   * What that width means: 0 when no item has a tab; otherwise at most the
   * cap, no less than any tabbed column (capped), no more than some tabbed
   * column, and either the cap or the width of an actual column. Together
   * these make it the widest column capped at `wmax`.
   */
  lemma FirstColumnWidthBounds(items: seq<ListItem>, wmax: int)
    ensures 0 <= wmax ==> 0 <= FirstColumnWidth(items, wmax) <= wmax
    ensures var r := FirstColumnWidth(items, wmax);
      AnyTab(items) ==> forall i :: 0 <= i < |items| && HasTab(items[i]) ==> Min(FieldWidth(items[i]), wmax) <= r
    ensures var r := FirstColumnWidth(items, wmax);
      AnyTab(items) ==> r == wmax || exists i :: 0 <= i < |items| && HasTab(items[i]) && FieldWidth(items[i]) == r
    ensures var r := FirstColumnWidth(items, wmax);
      AnyTab(items) ==> exists i :: 0 <= i < |items| && HasTab(items[i]) && r <= FieldWidth(items[i])
  {
    WidestBounds(items);
  }

  /** Whether the autosize string asks for a first column (`c`, either case); none asks for nothing. */
  function WantsColumn(autosize: Option<string>): (r: bool)
    ensures r <==> autosize.Some? && ('c' in autosize.value || 'C' in autosize.value)
  {
    if autosize.None? then false
    else
      HasLetterIn(autosize.value, 'c');
      LowerHasC(autosize.value);
      HasLetter(autosize.value, 'c')
  }

  lemma LowerHasC(s: string)
    ensures 'c' in Lower(s) <==> 'c' in s || 'C' in s
  {
    var l := Lower(s);
    if 'c' in l {
      var i :| 0 <= i < |l| && l[i] == 'c';
      assert LowerChar(s[i]) == 'c';
    }
    if 'c' in s {
      var i :| 0 <= i < |s| && s[i] == 'c';
      assert l[i] == 'c';
    } else if 'C' in s {
      var i :| 0 <= i < |s| && s[i] == 'C';
      assert l[i] == 'c';
    }
  }

  /**
   * The first test of `getFirstColumnWidth` as written: it lower-cases the
   * autosize string without checking for none, so with no autosize string
   * it raises `AttributeError`.
   */
  function WantsColumnAsWritten(autosize: Option<string>): (r: Result<bool>)
    ensures r.Err? <==> autosize.None?
    ensures r.Ok? ==> r.value == WantsColumn(autosize)
  {
    if autosize.None? then Err(AttributeError("'NoneType' object has no attribute 'lower'"))
    else Ok(HasLetter(autosize.value, 'c'))
  }
}
