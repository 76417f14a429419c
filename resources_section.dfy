/**
 * The resource library: resources are filtered by an optional active category
 * and a case-insensitive search query, the survivors are grouped into one
 * block per listed category (empty blocks are skipped), an empty-state notice
 * replaces an empty result, and every resource's icon name is resolved with a
 * fallback.
 */
module ResourcesSection {
  import opened Wrappers
  import opened Sequences

  datatype Resource = Resource(id: string, name: string, description: string, url: string,
                               icon: string, category: string)

  /** The category tabs, in display order. */
  const Categories: seq<string> := ["开发工具", "灵感来源", "学习路径"]

  /** The icons the icon table knows, plus the fallback. */
  datatype Icon = Code2 | Github | Figma | Palette | Award | FileCode | GraduationCap | Flame
                | BookOpen | ExternalLink

  /** The names of the icon table, in the table's order. */
  const IconNames: seq<string> := ["Code2", "Github", "Figma", "Palette", "Award", "FileCode",
                                  "GraduationCap", "Flame", "BookOpen"]

  /** The icon table lookup with its fallback. */
  function IconFor(name: string): Icon {
    match name
    case "Code2" => Code2
    case "Github" => Github
    case "Figma" => Figma
    case "Palette" => Palette
    case "Award" => Award
    case "FileCode" => FileCode
    case "GraduationCap" => GraduationCap
    case "Flame" => Flame
    case "BookOpen" => BookOpen
    case _ => ExternalLink
  }

  /** The name an icon is listed under in the table. */
  function IconName(i: Icon): string
    requires i != ExternalLink
  {
    match i
    case Code2 => "Code2"
    case Github => "Github"
    case Figma => "Figma"
    case Palette => "Palette"
    case Award => "Award"
    case FileCode => "FileCode"
    case GraduationCap => "GraduationCap"
    case Flame => "Flame"
    case BookOpen => "BookOpen"
  }

  /** A name outside the table falls back to the external-link icon, and only such a name does. */
  lemma IconFallback(name: string)
    ensures IconFor(name) == ExternalLink <==> name !in IconNames
    ensures name in IconNames ==> IconName(IconFor(name)) == name
  {
  }

  /** Every table icon is found under its own name. */
  lemma IconRoundTrip(i: Icon)
    requires i != ExternalLink
    ensures IconName(i) in IconNames && IconFor(IconName(i)) == i
  {
  }

  /** The ASCII case mapping of one character. */
  function LowerChar(c: char): (d: char)
    ensures 'A' <= c <= 'Z' ==> d as int == c as int + 32
    ensures !('A' <= c <= 'Z') ==> d == c
  {
    if 'A' <= c <= 'Z' then (c as int + 32) as char else c
  }

  /** Lower-casing, character by character. */
  function Lower(s: string): (t: string)
    ensures |t| == |s|
    ensures forall i :: 0 <= i < |s| ==> t[i] == LowerChar(s[i])
  {
    seq(|s|, i requires 0 <= i < |s| => LowerChar(s[i]))
  }

  /** Lower-casing twice is lower-casing once. */
  lemma LowerIdempotent(s: string)
    ensures Lower(Lower(s)) == Lower(s)
  {
    assert forall i :: 0 <= i < |s| ==> LowerChar(LowerChar(s[i])) == LowerChar(s[i]);
  }

  /** A null or empty active category selects everything. */
  predicate CategorySet(active: Option<string>) {
    active.Some? && active.value != ""
  }

  predicate MatchesCategory(r: Resource, active: Option<string>) {
    !CategorySet(active) || r.category == active.value
  }

  predicate MatchesSearch(r: Resource, query: string) {
    query == "" || Includes(Lower(r.name), Lower(query)) || Includes(Lower(r.description), Lower(query))
  }

  predicate Kept(r: Resource, active: Option<string>, query: string) {
    MatchesCategory(r, active) && MatchesSearch(r, query)
  }

  /** The resources the grid offers for the current category and query. */
  function Filtered(rs: seq<Resource>, active: Option<string>, query: string): (out: seq<Resource>)
    ensures |out| <= |rs|
    decreases |rs|
  {
    if rs == [] then []
    else if Kept(rs[0], active, query) then [rs[0]] + Filtered(rs[1..], active, query)
    else Filtered(rs[1..], active, query)
  }

  /** A resource is offered exactly when it is a resource meeting both conditions. */
  lemma {:induction false} FilteredMembers(rs: seq<Resource>, active: Option<string>, query: string)
    ensures forall r :: r in Filtered(rs, active, query) <==> r in rs && Kept(r, active, query)
    decreases |rs|
  {
    if rs != [] {
      FilteredMembers(rs[1..], active, query);
      assert rs == [rs[0]] + rs[1..];
    }
  }

  /** The offered resources keep the library's order. */
  lemma {:induction false} FilteredKeepsOrder(rs: seq<Resource>, active: Option<string>, query: string)
    ensures Subsequence(Filtered(rs, active, query), rs)
    decreases |rs|
  {
    if rs != [] {
      FilteredKeepsOrder(rs[1..], active, query);
      if Kept(rs[0], active, query) {
        assert ([rs[0]] + Filtered(rs[1..], active, query))[1..] == Filtered(rs[1..], active, query);
      } else {
        FilteredMembers(rs[1..], active, query);
      }
    }
  }

  /** Filtering a concatenation filters each part: the relative order of any two survivors is kept. */
  lemma {:induction false} FilteredConcat(a: seq<Resource>, b: seq<Resource>, active: Option<string>, query: string)
    ensures Filtered(a + b, active, query) == Filtered(a, active, query) + Filtered(b, active, query)
    decreases |a|
  {
    if a != [] {
      assert (a + b)[0] == a[0] && (a + b)[1..] == a[1..] + b;
      FilteredConcat(a[1..], b, active, query);
      if Kept(a[0], active, query) {
        assert [a[0]] + (Filtered(a[1..], active, query) + Filtered(b, active, query))
            == ([a[0]] + Filtered(a[1..], active, query)) + Filtered(b, active, query);
      }
    } else {
      assert a + b == b;
    }
  }

  /** With no active category and an empty query, the whole library is offered in order. */
  lemma {:induction false} FilteredUnset(rs: seq<Resource>, active: Option<string>)
    requires !CategorySet(active)
    ensures Filtered(rs, active, "") == rs
    decreases |rs|
  {
    if rs != [] {
      FilteredUnset(rs[1..], active);
    }
  }

  /** With a category set, every offered resource has that category. */
  lemma FilteredInCategory(rs: seq<Resource>, active: Option<string>, query: string)
    requires CategorySet(active)
    ensures forall r :: r in Filtered(rs, active, query) ==> r.category == active.value
  {
    FilteredMembers(rs, active, query);
  }

  /** With a non-empty query, every offered resource mentions it, ignoring case, in its name or description. */
  lemma FilteredMatchQuery(rs: seq<Resource>, active: Option<string>, query: string)
    requires query != ""
    ensures forall r :: r in Filtered(rs, active, query) ==>
              Includes(Lower(r.name), Lower(query)) || Includes(Lower(r.description), Lower(query))
  {
    FilteredMembers(rs, active, query);
  }

  /** The query's case does not matter. */
  lemma {:induction false} FilteredIgnoresCase(rs: seq<Resource>, active: Option<string>, query: string)
    ensures Filtered(rs, active, Lower(query)) == Filtered(rs, active, query)
    decreases |rs|
  {
    LowerIdempotent(query);
    assert Lower(query) == "" <==> query == "";
    if rs != [] {
      FilteredIgnoresCase(rs[1..], active, query);
    }
  }

  /** The offered resources of one category, as a category block lists them. */
  function ByCategory(filtered: seq<Resource>, c: string): (out: seq<Resource>)
    ensures |out| <= |filtered|
    decreases |filtered|
  {
    if filtered == [] then []
    else if filtered[0].category == c then [filtered[0]] + ByCategory(filtered[1..], c)
    else ByCategory(filtered[1..], c)
  }

  /**
   * A block lists exactly what filtering by its own category would offer:
   * with no active category or the block's own one, the query's matches of that
   * category; with another active category, nothing.
   */
  lemma {:induction false} ByCategoryOfFiltered(rs: seq<Resource>, active: Option<string>, query: string, c: string)
    requires c != ""
    ensures !CategorySet(active) || active.value == c ==>
              ByCategory(Filtered(rs, active, query), c) == Filtered(rs, Some(c), query)
    ensures CategorySet(active) && active.value != c ==> ByCategory(Filtered(rs, active, query), c) == []
    decreases |rs|
  {
    if rs != [] {
      ByCategoryOfFiltered(rs[1..], active, query, c);
    }
  }

  /** A block lists exactly the offered resources of its category, in offered order. */
  lemma {:induction false} ByCategoryMembers(filtered: seq<Resource>, c: string)
    ensures forall r :: r in ByCategory(filtered, c) <==> r in filtered && r.category == c
    ensures Subsequence(ByCategory(filtered, c), filtered)
    decreases |filtered|
  {
    if filtered != [] {
      ByCategoryMembers(filtered[1..], c);
      assert filtered == [filtered[0]] + filtered[1..];
      if filtered[0].category == c {
        assert ([filtered[0]] + ByCategory(filtered[1..], c))[1..] == ByCategory(filtered[1..], c);
      }
    }
  }

  /** One rendered category block. */
  datatype Block = Block(category: string, items: seq<Resource>)

  /** The blocks of the grid: one per listed category, skipped when its list is empty. */
  function Blocks(filtered: seq<Resource>, cats: seq<string>): (bs: seq<Block>)
    ensures |bs| <= |cats|
    decreases |cats|
  {
    if cats == [] then []
    else
      var items := ByCategory(filtered, cats[0]);
      if items == [] then Blocks(filtered, cats[1..])
      else [Block(cats[0], items)] + Blocks(filtered, cats[1..])
  }

  function BlockCategories(bs: seq<Block>): seq<string>
    decreases |bs|
  {
    if bs == [] then [] else [bs[0].category] + BlockCategories(bs[1..])
  }

  /** Every shown block is non-empty, and a listed category is shown exactly when its list is non-empty. */
  lemma {:induction false} BlocksShown(filtered: seq<Resource>, cats: seq<string>)
    ensures forall b :: b in Blocks(filtered, cats) ==> b.items != [] && b.items == ByCategory(filtered, b.category)
    ensures forall c :: c in BlockCategories(Blocks(filtered, cats)) <==> c in cats && ByCategory(filtered, c) != []
    decreases |cats|
  {
    if cats != [] {
      BlocksShown(filtered, cats[1..]);
      assert cats == [cats[0]] + cats[1..];
    }
  }

  /** The resources the grid displays, block after block. */
  function Displayed(bs: seq<Block>): seq<Resource>
    decreases |bs|
  {
    if bs == [] then [] else bs[0].items + Displayed(bs[1..])
  }

  /** An offered resource is displayed exactly when its category is a listed one. */
  lemma {:induction false} DisplayedMembers(filtered: seq<Resource>, cats: seq<string>)
    ensures forall r :: r in Displayed(Blocks(filtered, cats)) <==> r in filtered && r.category in cats
    decreases |cats|
  {
    if cats != [] {
      DisplayedMembers(filtered, cats[1..]);
      ByCategoryMembers(filtered, cats[0]);
      assert cats == [cats[0]] + cats[1..];
    }
  }

  /** The empty-state notice is shown exactly when nothing is offered. */
  predicate EmptyState(filtered: seq<Resource>) {
    |filtered| == 0
  }

  /**
   * When every offered resource belongs to a listed category, the grid shows no
   * block exactly when the empty-state notice is shown.
   */
  lemma NoBlocksIffEmptyState(filtered: seq<Resource>, cats: seq<string>)
    requires forall r :: r in filtered ==> r.category in cats
    ensures Blocks(filtered, cats) == [] <==> EmptyState(filtered)
  {
    DisplayedMembers(filtered, cats);
    if filtered != [] {
      assert filtered[0] in Displayed(Blocks(filtered, cats));
    }
  }

  /** The library ships only resources of the listed categories, so the equivalence holds for it. */
  lemma {:induction false} ListedCategoriesShown(rs: seq<Resource>, active: Option<string>, query: string)
    requires forall r :: r in rs ==> r.category in Categories
    ensures Blocks(Filtered(rs, active, query), Categories) == [] <==> EmptyState(Filtered(rs, active, query))
    ensures forall r :: r in Displayed(Blocks(Filtered(rs, active, query), Categories)) <==>
              r in rs && Kept(r, active, query)
  {
    FilteredMembers(rs, active, query);
    NoBlocksIffEmptyState(Filtered(rs, active, query), Categories);
    DisplayedMembers(Filtered(rs, active, query), Categories);
  }
}
