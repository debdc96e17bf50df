/**
 * List items and the filter-and-rank rule that `CList.__applyFilter`
 * implements: a case-insensitive substring filter that, when `filtersort`
 * is on, moves the items whose filter text starts with the filter string
 * ahead of the others, keeping both groups in their original order.
 */
module Items {
  import opened Wrappers
  import opened PyStr

  /**
   * `CListItem`.  Items are compared by identity (the Python class has no
   * `__eq__`), which is what reference equality on a Dafny class gives.
   */
  class ListItem {
    const text: string
    var flags: int
    var quickchar: Option<char>
    var selected: int

    constructor (text: string)
      ensures this.text == text
      ensures flags == 0 && quickchar == None && selected == 0
    {
      this.text := text;
      flags := 0;
      quickchar := None;
      selected := 0;
    }

    /** `displayText`: the item's own text. */
    function DisplayText(): (r: string)
      ensures r == text
    {
      text
    }

    /** `filterText`: the text the filter looks at, the same as the displayed one. */
    function FilterText(): (r: string)
      ensures r == text && r == DisplayText()
    {
      text
    }
  }

  /** The two ranks of a matching item: matched at the very start, or elsewhere. */
  datatype Rank = Head | Tail

  /**
   * How one iteration of the filter loop files `item` for the lower-cased
   * filter string `filt`: dropped (`None`), appended to `inhead`, or
   * appended to `intail`.  The search always starts at offset 0.
   */
  function Classify(item: ListItem, filt: string, filtersort: bool): (r: Option<Rank>)
    ensures r.Some? <==> Occurs(Lower(item.FilterText()), filt)
    ensures r == Some(Head) <==> filtersort && StartsWith(Lower(item.FilterText()), filt)
  {
    var pos := Find(Lower(item.FilterText()), filt);
    if pos < 0 then None
    else if pos == 0 && filtersort then Some(Head)
    else Some(Tail)
  }

  /** The items of `s` that `Classify` files under `g`, in the order of `s`. */
  function Group(s: seq<ListItem>, filt: string, filtersort: bool, g: Rank): (r: seq<ListItem>)
    ensures |r| <= |s|
  {
    if s == [] then []
    else
      var last := s[|s| - 1];
      Group(s[..|s| - 1], filt, filtersort, g) + (if Classify(last, filt, filtersort) == Some(g) then [last] else [])
  }

  /**
   * The filtered view: every item for an empty filter, otherwise the head
   * group followed by the tail group.
   */
  function Filtered(all: seq<ListItem>, strFilter: string, filtersort: bool): (r: seq<ListItem>)
    ensures strFilter == "" ==> r == all
  {
    if strFilter == "" then all
    else
      var filt := Lower(strFilter);
      Group(all, filt, filtersort, Head) + Group(all, filt, filtersort, Tail)
  }

  /**
   * Membership in the view: an empty filter keeps `all` as it is;
   * otherwise the view holds only items of `all`, and an item of `all` is in
   * it exactly when the lower-cased filter occurs in its lower-cased text.
   */
  lemma FilteredMembers(all: seq<ListItem>, strFilter: string, filtersort: bool)
    ensures strFilter == "" ==> Filtered(all, strFilter, filtersort) == all
    ensures forall x :: x in Filtered(all, strFilter, filtersort) ==> x in all
    ensures strFilter != "" ==> forall x :: x in all ==>
      (x in Filtered(all, strFilter, filtersort) <==> Occurs(Lower(x.FilterText()), Lower(strFilter)))
  {
    if strFilter != "" {
      var filt := Lower(strFilter);
      MatchesAreGrouped(all, filt, filtersort);
      GroupSound(all, filt, filtersort, Head);
      GroupSound(all, filt, filtersort, Tail);
    }
  }

  lemma MatchesAreGrouped(all: seq<ListItem>, filt: string, filtersort: bool)
    ensures forall x :: x in all && Occurs(Lower(x.FilterText()), filt) ==>
      x in Group(all, filt, filtersort, Head) || x in Group(all, filt, filtersort, Tail)
  {
    forall x | x in all && Occurs(Lower(x.FilterText()), filt)
      ensures x in Group(all, filt, filtersort, Head) || x in Group(all, filt, filtersort, Tail)
    {
      GroupComplete(all, filt, filtersort, Classify(x, filt, filtersort).value, x);
    }
  }

  /** A group holds only items of `s`, each filed under its rank. */
  lemma {:induction false} GroupSound(s: seq<ListItem>, filt: string, filtersort: bool, g: Rank)
    ensures forall x :: x in Group(s, filt, filtersort, g) ==> x in s && Classify(x, filt, filtersort) == Some(g)
    decreases |s|
  {
    if s != [] {
      GroupSound(s[..|s| - 1], filt, filtersort, g);
    }
  }

  /** Extending a prefix of `s` by one item extends its group by that item when it is filed under `g`. */
  lemma GroupSnoc(s: seq<ListItem>, k: int, filt: string, filtersort: bool, g: Rank)
    requires 0 <= k < |s|
    ensures Group(s[..k + 1], filt, filtersort, g) ==
      Group(s[..k], filt, filtersort, g) + (if Classify(s[k], filt, filtersort) == Some(g) then [s[k]] else [])
  {
    assert s[..k + 1][..k] == s[..k];
  }

  /** Every item of `s` filed under `g` is in the group. */
  lemma {:induction false} GroupComplete(s: seq<ListItem>, filt: string, filtersort: bool, g: Rank, x: ListItem)
    requires x in s && Classify(x, filt, filtersort) == Some(g)
    ensures x in Group(s, filt, filtersort, g)
    decreases |s|
  {
    if x != s[|s| - 1] {
      var i :| 0 <= i < |s| && s[i] == x;
      assert s[..|s| - 1][i] == x;
      GroupComplete(s[..|s| - 1], filt, filtersort, g, x);
    }
  }

  /** Grouping distributes over concatenation. */
  lemma {:induction false} GroupConcat(a: seq<ListItem>, b: seq<ListItem>, filt: string, filtersort: bool, g: Rank)
    ensures Group(a + b, filt, filtersort, g) == Group(a, filt, filtersort, g) + Group(b, filt, filtersort, g)
    decreases |b|
  {
    if b == [] {
      assert a + b == a;
    } else {
      var b' := b[..|b| - 1];
      assert (a + b)[..|a + b| - 1] == a + b';
      GroupConcat(a, b', filt, filtersort, g);
    }
  }

  /** Grouping a group again keeps it whole under its own rank and empties it under the other. */
  lemma {:induction false} GroupOfGroup(s: seq<ListItem>, filt: string, filtersort: bool, g: Rank, g': Rank)
    ensures Group(Group(s, filt, filtersort, g), filt, filtersort, g') ==
      if g == g' then Group(s, filt, filtersort, g) else []
    decreases |s|
  {
    if s != [] {
      var last := s[|s| - 1];
      var rest := Group(s[..|s| - 1], filt, filtersort, g);
      var one := if Classify(last, filt, filtersort) == Some(g) then [last] else [];
      GroupOfGroup(s[..|s| - 1], filt, filtersort, g, g');
      GroupConcat(rest, one, filt, filtersort, g');
      if one != [] {
        assert Group(one, filt, filtersort, g') == Group([], filt, filtersort, g') + (if g == g' then one else []) by {
          assert one[..0] == [];
        }
      }
    }
  }

  /**
   * The filtered view lists every head item before every tail item: with
   * `filtersort` on, an item whose lower-cased filter text starts with the
   * lower-cased filter precedes every other match.
   */
  lemma FilteredHeadsFirst(all: seq<ListItem>, strFilter: string, i: int, j: int)
    requires strFilter != ""
    requires var r := Filtered(all, strFilter, true);
      0 <= i < |r| && 0 <= j < |r| &&
      StartsWith(Lower(r[i].FilterText()), Lower(strFilter)) &&
      !StartsWith(Lower(r[j].FilterText()), Lower(strFilter))
    ensures i < j
  {
    var filt := Lower(strFilter);
    var heads := Group(all, filt, true, Head);
    var tails := Group(all, filt, true, Tail);
    var r := heads + tails;
    assert r == Filtered(all, strFilter, true);
    GroupSound(all, filt, true, Head);
    GroupSound(all, filt, true, Tail);
    assert forall k :: 0 <= k < |heads| ==> r[k] in heads;
    assert forall k :: |heads| <= k < |r| ==> r[k] == tails[k - |heads|];
    assert Classify(r[i], filt, true) == Some(Head);
    assert Classify(r[j], filt, true) != Some(Head);
    assert r[i] !in tails && r[j] !in heads;
  }

  /**
   * Within each rank the filtered view keeps the order of `all`: picking
   * one rank out of the view gives exactly that rank picked out of `all`.
   */
  lemma FilteredGroupsStable(all: seq<ListItem>, strFilter: string, filtersort: bool, g: Rank)
    requires strFilter != ""
    ensures var filt := Lower(strFilter);
      Group(Filtered(all, strFilter, filtersort), filt, filtersort, g) == Group(all, filt, filtersort, g)
  {
    var filt := Lower(strFilter);
    var heads := Group(all, filt, filtersort, Head);
    var tails := Group(all, filt, filtersort, Tail);
    GroupConcat(heads, tails, filt, filtersort, g);
    GroupOfGroup(all, filt, filtersort, Head, g);
    GroupOfGroup(all, filt, filtersort, Tail, g);
  }

  /** Reference definition: the items of `s` whose lower-cased filter text contains `filt`, in order. */
  ghost function Matching(s: seq<ListItem>, filt: string): seq<ListItem>
  {
    if s == [] then []
    else
      var last := s[|s| - 1];
      Matching(s[..|s| - 1], filt) + (if Occurs(Lower(last.FilterText()), filt) then [last] else [])
  }

  /** Without `filtersort` the head group is empty and the tail group is exactly the matches in order. */
  lemma {:induction false} UnsortedGroups(s: seq<ListItem>, filt: string)
    ensures Group(s, filt, false, Head) == []
    ensures Group(s, filt, false, Tail) == Matching(s, filt)
    decreases |s|
  {
    if s != [] {
      UnsortedGroups(s[..|s| - 1], filt);
    }
  }

  /** With `filtersort` off the view is the order-preserving subsequence of matching items. */
  lemma FilteredUnsorted(all: seq<ListItem>, strFilter: string)
    requires strFilter != ""
    ensures Filtered(all, strFilter, false) == Matching(all, Lower(strFilter))
  {
    UnsortedGroups(all, Lower(strFilter));
  }

  lemma {:induction false} GroupsPartitionMatching(s: seq<ListItem>, filt: string, filtersort: bool)
    ensures multiset(Group(s, filt, filtersort, Head)) + multiset(Group(s, filt, filtersort, Tail))
      == multiset(Matching(s, filt))
    decreases |s|
  {
    if s != [] {
      GroupsPartitionMatching(s[..|s| - 1], filt, filtersort);
    }
  }

  /** Whatever `filtersort` says, the view holds each matching item exactly as often as `all` does. */
  lemma FilteredPermutesMatching(all: seq<ListItem>, strFilter: string, filtersort: bool)
    requires strFilter != ""
    ensures multiset(Filtered(all, strFilter, filtersort)) == multiset(Matching(all, Lower(strFilter)))
  {
    GroupsPartitionMatching(all, Lower(strFilter), filtersort);
  }

  /** `all.index(x)`: the first position at which the very object `x` stands. */
  function IndexOf(s: seq<ListItem>, x: ListItem): (i: int)
    requires x in s
    ensures 0 <= i < |s| && s[i] == x
    ensures forall j :: 0 <= j < i ==> s[j] != x
  {
    if s[0] == x then 0 else 1 + IndexOf(s[1..], x)
  }

  /** A fruit list filtered by "ap": "apple" matches at the start, "grape" further in, "banana" not at all. */
  lemma FruitExample(apple: ListItem, banana: ListItem, grape: ListItem)
    requires apple.text == "apple" && banana.text == "banana" && grape.text == "grape"
    ensures Filtered([apple, banana, grape], "ap", true) == [apple, grape]
  {
    ClassifyApple(apple);
    ClassifyBanana(banana);
    ClassifyGrape(grape);
    FilteredOfThree(apple, banana, grape, "ap", true);
  }

  lemma ClassifyApple(apple: ListItem)
    requires apple.text == "apple"
    ensures Lower("ap") == "ap" && Classify(apple, "ap", true) == Some(Head)
  {
    assert Lower("ap") == "ap";
    assert Lower("apple") == "apple";
    assert StartsWith("apple", "ap");
  }

  lemma ClassifyBanana(banana: ListItem)
    requires banana.text == "banana"
    ensures Classify(banana, "ap", true) == None
  {
    assert Lower("ap") == "ap";
    assert Lower("banana") == "banana";
    assert forall i :: 0 <= i < |"banana"| ==> "banana"[i] != 'p';
    forall k | 0 <= k ensures !OccursAt("banana", "ap", k) {
      if k + 2 <= 6 {
        assert "banana"[k..k + 2][1] == "banana"[k + 1];
      }
    }
  }

  lemma ClassifyGrape(grape: ListItem)
    requires grape.text == "grape"
    ensures Classify(grape, "ap", true) == Some(Tail)
  {
    assert Lower("ap") == "ap";
    assert Lower("grape") == "grape";
    assert OccursAt("grape", "ap", 2);
    assert "grape"[..2][0] == 'g';
  }

  /** Filter "a" over "xa", "ax", "ya": the item starting with "a" moves to the front, unless sorting is off. */
  lemma RankingExample(xa: ListItem, ax: ListItem, ya: ListItem)
    requires xa.text == "xa" && ax.text == "ax" && ya.text == "ya"
    ensures Filtered([xa, ax, ya], "a", true) == [ax, xa, ya]
    ensures Filtered([xa, ax, ya], "a", false) == [xa, ax, ya]
  {
    ClassifyEndsInA(xa);
    ClassifyEndsInA(ya);
    ClassifyAx(ax);
    FilteredOfThree(xa, ax, ya, "a", true);
    FilteredOfThree(xa, ax, ya, "a", false);
  }

  lemma ClassifyEndsInA(x: ListItem)
    requires x.text == "xa" || x.text == "ya"
    ensures forall sort: bool :: Classify(x, "a", sort) == Some(Tail)
  {
    assert Lower("a") == "a";
    assert Lower("xa") == "xa" && Lower("ya") == "ya";
    assert OccursAt("xa", "a", 1) && OccursAt("ya", "a", 1);
    assert "xa"[..1][0] == 'x' && "ya"[..1][0] == 'y';
    assert !StartsWith("xa", "a") && !StartsWith("ya", "a");
  }

  lemma ClassifyAx(ax: ListItem)
    requires ax.text == "ax"
    ensures Lower("a") == "a"
    ensures Classify(ax, "a", true) == Some(Head) && Classify(ax, "a", false) == Some(Tail)
  {
    assert Lower("a") == "a";
    assert Lower("ax") == "ax";
    assert OccursAt("ax", "a", 0);
  }

  /** Filtering three items: first the head group in list order, then the tail group in list order. */
  lemma FilteredOfThree(a: ListItem, b: ListItem, c: ListItem, strFilter: string, filtersort: bool)
    requires strFilter != ""
    ensures var filt := Lower(strFilter);
      Filtered([a, b, c], strFilter, filtersort)
      == (Pick(a, filt, filtersort, Head) + Pick(b, filt, filtersort, Head) + Pick(c, filt, filtersort, Head))
       + (Pick(a, filt, filtersort, Tail) + Pick(b, filt, filtersort, Tail) + Pick(c, filt, filtersort, Tail))
  {
    var filt := Lower(strFilter);
    GroupOfThree(a, b, c, filt, filtersort, Head);
    GroupOfThree(a, b, c, filt, filtersort, Tail);
  }

  lemma GroupOfThree(a: ListItem, b: ListItem, c: ListItem, filt: string, filtersort: bool, g: Rank)
    ensures Group([a, b, c], filt, filtersort, g) == Pick(a, filt, filtersort, g) + Pick(b, filt, filtersort, g) + Pick(c, filt, filtersort, g)
  {
    var s := [a, b, c];
    GroupSnoc(s, 0, filt, filtersort, g);
    GroupSnoc(s, 1, filt, filtersort, g);
    GroupSnoc(s, 2, filt, filtersort, g);
    assert s[..0] == [] && s[..3] == s;
    assert Group(s[..1], filt, filtersort, g) == Pick(a, filt, filtersort, g);
  }

  function Pick(x: ListItem, filt: string, filtersort: bool, g: Rank): seq<ListItem> {
    if Classify(x, filt, filtersort) == Some(g) then [x] else []
  }
}
