/**
 * The journal: a clicked card selects a post by id, the detail view opens only
 * when both the post and its extended content are found, and the content is
 * turned into markup by three global regular-expression rewrites applied in a
 * fixed order (headings, then bold, then inline code).
 */
module BlogSection {
  import opened Wrappers
  import opened Sequences

  datatype BlogPost = BlogPost(id: string, title: string, date: string, tags: seq<string>,
                               summary: string, image: string, slug: string)

  /** The extended text of a post shown by the detail view. */
  datatype Content = Content(quote: string, content: string)

  /** The detail view's state: the selected post id (null or empty selects nothing) and the reading mode. */
  datatype Reader = Reader(selected: Option<string>, readingMode: bool)

  const Closed: Reader := Reader(None, false)

  predicate Selected(r: Reader) {
    r.selected.Some? && r.selected.value != ""
  }

  /** The first post with the given id. */
  function FindPost(posts: seq<BlogPost>, id: string): (found: Option<BlogPost>)
    ensures found.Some? ==> found.value in posts && found.value.id == id
    ensures found.None? <==> forall p :: p in posts ==> p.id != id
    decreases |posts|
  {
    if posts == [] then None
    else if posts[0].id == id then Some(posts[0])
    else FindPost(posts[1..], id)
  }

  /** FindPost returns the earliest match. */
  lemma {:induction false} FindPostFirst(posts: seq<BlogPost>, id: string, k: nat)
    requires k < |posts| && posts[k].id == id
    requires forall i :: 0 <= i < k ==> posts[i].id != id
    ensures FindPost(posts, id) == Some(posts[k])
    decreases k
  {
    if k > 0 {
      FindPostFirst(posts[1..], id, k - 1);
    }
  }

  /** The selected post, as the view looks it up. */
  function SelectedPost(posts: seq<BlogPost>, r: Reader): (found: Option<BlogPost>)
    ensures !Selected(r) ==> found.None?
    ensures Selected(r) ==> found == FindPost(posts, r.selected.value)
  {
    if Selected(r) then FindPost(posts, r.selected.value) else None
  }

  /** The selected post's extended text; a missing key reads as undefined. */
  function SelectedContent(contents: map<string, Content>, r: Reader): (c: Option<Content>)
    ensures c.Some? <==> Selected(r) && r.selected.value in contents
    ensures c.Some? ==> c.value == contents[r.selected.value]
  {
    if Selected(r) && r.selected.value in contents then Some(contents[r.selected.value]) else None
  }

  /** Whether the detail view is open. */
  predicate ModalShown(posts: seq<BlogPost>, contents: map<string, Content>, r: Reader) {
    Selected(r) && SelectedPost(posts, r).Some? && SelectedContent(contents, r).Some?
  }

  /** The view opens exactly for a selected id that names both a post and an extended text. */
  lemma ModalShownIff(posts: seq<BlogPost>, contents: map<string, Content>, r: Reader)
    ensures ModalShown(posts, contents, r) <==>
              Selected(r) && r.selected.value in contents &&
              exists i :: 0 <= i < |posts| && posts[i].id == r.selected.value
  {
    if Selected(r) && exists i :: 0 <= i < |posts| && posts[i].id == r.selected.value {
      var i :| 0 <= i < |posts| && posts[i].id == r.selected.value;
      assert posts[i] in posts;
    }
  }

  /** A card click selects its post. */
  function Open(r: Reader, id: string): (r': Reader)
    ensures r'.selected == Some(id) && r'.readingMode == r.readingMode
  {
    r.(selected := Some(id))
  }

  /** The backdrop and the close button clear the selection; the reading mode is kept. */
  function Close(r: Reader): (r': Reader)
    ensures !Selected(r') && r'.readingMode == r.readingMode
  {
    r.(selected := None)
  }

  /** The reading-mode button negates the flag. */
  function ToggleReading(r: Reader): (r': Reader)
    ensures r'.readingMode != r.readingMode && r'.selected == r.selected
  {
    r.(readingMode := !r.readingMode)
  }

  lemma ToggleTwice(r: Reader)
    ensures ToggleReading(ToggleReading(r)) == r
  {
  }

  /** Opening a card whose post and text both exist shows that post. */
  lemma OpenShowsPost(posts: seq<BlogPost>, contents: map<string, Content>, r: Reader, k: nat)
    requires k < |posts| && posts[k].id != "" && posts[k].id in contents
    ensures ModalShown(posts, contents, Open(r, posts[k].id))
    ensures SelectedPost(posts, Open(r, posts[k].id)).value.id == posts[k].id
    ensures !ModalShown(posts, contents, Close(Open(r, posts[k].id)))
  {
    assert posts[k] in posts;
  }

  // ---- The mini-markdown rewriter ----

  const H2Open: string := "<h2 class=\"text-2xl font-bold text-[var(--text-primary)] mt-10 mb-4\">"
  const H2Close: string := "</h2>"
  const StrongOpen: string := "<strong class=\"text-[var(--text-primary)]\">"
  const StrongClose: string := "</strong>"
  const CodeOpen: string := "<code class=\"px-2 py-1 rounded bg-[var(--bg-tertiary)] text-[var(--accent-primary)] text-sm\">"
  const CodeClose: string := "</code>"

  const HeadingMarker: string := "## "
  const BoldMarker: string := "**"

  /** The characters a regular-expression dot does not match. */
  predicate IsLineTerminator(c: char) {
    c == '\n' || c == '\r' || c == '\U{2028}' || c == '\U{2029}'
  }

  predicate SingleLine(s: string) {
    forall i :: 0 <= i < |s| ==> !IsLineTerminator(s[i])
  }

  /** The length of the longest line-terminator-free prefix, as a greedy dot-star matches it. */
  function LineLength(s: string): (n: nat)
    ensures n <= |s|
    ensures SingleLine(s[..n])
    ensures n < |s| ==> IsLineTerminator(s[n])
    decreases |s|
  {
    if s == [] || IsLineTerminator(s[0]) then 0
    else
      var n := 1 + LineLength(s[1..]);
      assert s[..n] == [s[0]] + s[1..][..n - 1];
      n
  }

  /** The heading rewrite: each heading marker and the rest of its line become an h2 element. */
  function Headings(s: string): string
    decreases |s|
  {
    if |s| >= 3 && s[..3] == HeadingMarker then
      var n := 3 + LineLength(s[3..]);
      H2Open + s[3..n] + H2Close + Headings(s[n..])
    else if s == [] then []
    else [s[0]] + Headings(s[1..])
  }

  /** The first closing bold marker at or after k, reached before any line terminator. */
  function CloseBold(s: string, k: nat): (j: Option<nat>)
    requires k <= |s|
    ensures j.Some? ==> k <= j.value && j.value + 2 <= |s| && s[j.value..j.value + 2] == BoldMarker
    ensures j.Some? ==> SingleLine(s[k..j.value])
    ensures j.Some? ==> forall i :: k <= i < j.value ==> !OccursAt(s, BoldMarker, i)
    decreases |s| - k
  {
    if k + 2 > |s| then None
    else if s[k..k + 2] == BoldMarker then Some(k)
    else if IsLineTerminator(s[k]) then None
    else
      var j := CloseBold(s, k + 1);
      if j.Some? then
        assert s[k..j.value] == [s[k]] + s[k + 1..j.value];
        j
      else j
  }

  /** The bold rewrite: the leftmost, shortest single-line span between two bold markers becomes a strong element. */
  function Bold(s: string): string
    decreases |s|
  {
    if |s| >= 2 && s[..2] == BoldMarker && CloseBold(s, 2).Some? then
      var j := CloseBold(s, 2).value;
      StrongOpen + s[2..j] + StrongClose + Bold(s[j + 2..])
    else if s == [] then []
    else [s[0]] + Bold(s[1..])
  }

  /** The first backtick at or after k. */
  function NextBacktick(s: string, k: nat): (j: Option<nat>)
    requires k <= |s|
    ensures j.Some? ==> k <= j.value < |s| && s[j.value] == '`'
    ensures j.Some? ==> forall i :: k <= i < j.value ==> s[i] != '`'
    ensures j.None? ==> forall i :: k <= i < |s| ==> s[i] != '`'
    decreases |s| - k
  {
    if k == |s| then None
    else if s[k] == '`' then Some(k)
    else NextBacktick(s, k + 1)
  }

  /** The code rewrite: a non-empty backtick-free span between two backticks becomes a code element. */
  function Code(s: string): string
    decreases |s|
  {
    if |s| >= 1 && s[0] == '`' && NextBacktick(s, 1).Some? && NextBacktick(s, 1).value > 1 then
      var j := NextBacktick(s, 1).value;
      CodeOpen + s[1..j] + CodeClose + Code(s[j + 1..])
    else if s == [] then []
    else [s[0]] + Code(s[1..])
  }

  /** The markup rendered for a post's content. */
  function Render(s: string): string {
    Code(Bold(Headings(s)))
  }

  /** Text with no heading marker is left alone by the heading rewrite. */
  lemma {:induction false} HeadingsPlain(s: string)
    requires !Includes(s, HeadingMarker)
    ensures Headings(s) == s
    decreases |s|
  {
    if s != [] {
      assert !OccursAt(s, HeadingMarker, 0);
      assert !Includes(s[1..], HeadingMarker) by {
        forall i | 0 <= i <= |s| - 1 - 3
          ensures !OccursAt(s[1..], HeadingMarker, i)
        {
          assert !OccursAt(s, HeadingMarker, i + 1);
          assert s[1..][i..i + 3] == s[i + 1..i + 4];
        }
      }
      HeadingsPlain(s[1..]);
    }
  }

  /** Text with no bold marker is left alone by the bold rewrite. */
  lemma {:induction false} BoldPlain(s: string)
    requires !Includes(s, BoldMarker)
    ensures Bold(s) == s
    decreases |s|
  {
    if s != [] {
      assert !OccursAt(s, BoldMarker, 0);
      assert !Includes(s[1..], BoldMarker) by {
        forall i | 0 <= i <= |s| - 1 - 2
          ensures !OccursAt(s[1..], BoldMarker, i)
        {
          assert !OccursAt(s, BoldMarker, i + 1);
          assert s[1..][i..i + 2] == s[i + 1..i + 3];
        }
      }
      BoldPlain(s[1..]);
    }
  }

  /** Text with no backtick is left alone by the code rewrite. */
  lemma {:induction false} CodePlain(s: string)
    requires forall i :: 0 <= i < |s| ==> s[i] != '`'
    ensures Code(s) == s
    decreases |s|
  {
    if s != [] {
      CodePlain(s[1..]);
    }
  }

  /** Content without heading markers, bold markers and backticks is rendered unchanged. */
  lemma RenderPlain(s: string)
    requires !Includes(s, HeadingMarker) && !Includes(s, BoldMarker)
    requires forall i :: 0 <= i < |s| ==> s[i] != '`'
    ensures Render(s) == s
  {
    HeadingsPlain(s);
    BoldPlain(s);
    CodePlain(s);
  }

  /** A heading marker takes the whole rest of its line, whatever it contains. */
  lemma HeadingLine(x: string, rest: string)
    requires SingleLine(x)
    requires rest == [] || IsLineTerminator(rest[0])
    ensures Headings(HeadingMarker + x + rest) == H2Open + x + H2Close + Headings(rest)
  {
    var s := HeadingMarker + x + rest;
    assert s[..3] == HeadingMarker;
    assert s[3..] == x + rest;
    LineLengthOf(x, rest);
    assert s[3..3 + |x|] == x;
    assert s[3 + |x|..] == rest;
  }

  /** The greedy dot-star stops exactly at the first line terminator. */
  lemma {:induction false} LineLengthOf(x: string, rest: string)
    requires SingleLine(x)
    requires rest == [] || IsLineTerminator(rest[0])
    ensures LineLength(x + rest) == |x|
    decreases |x|
  {
    if x == [] {
      assert x + rest == rest;
    } else {
      assert (x + rest)[1..] == x[1..] + rest;
      LineLengthOf(x[1..], rest);
    }
  }

  /** A single-line span with no inner closing marker between two bold markers becomes one strong element. */
  lemma BoldPair(x: string, rest: string)
    requires SingleLine(x)
    requires forall i :: 0 <= i < |x| ==> !OccursAt(x + BoldMarker, BoldMarker, i)
    ensures Bold(BoldMarker + x + BoldMarker + rest) == StrongOpen + x + StrongClose + Bold(rest)
  {
    var s := BoldMarker + x + BoldMarker + rest;
    assert s[..2] == BoldMarker;
    CloseBoldAt(s, x, rest, 2);
    assert s[2..2 + |x|] == x;
    assert s[2 + |x| + 2..] == rest;
  }

  lemma {:induction false} CloseBoldAt(s: string, x: string, rest: string, k: nat)
    requires s == BoldMarker + x + BoldMarker + rest
    requires 2 <= k <= 2 + |x|
    requires SingleLine(x)
    requires forall i :: 0 <= i < |x| ==> !OccursAt(x + BoldMarker, BoldMarker, i)
    ensures CloseBold(s, k) == Some(2 + |x|)
    decreases 2 + |x| - k
  {
    if k == 2 + |x| {
      assert s[k..k + 2] == BoldMarker;
    } else {
      assert !OccursAt(x + BoldMarker, BoldMarker, k - 2);
      assert s[k..k + 2] == (x + BoldMarker)[k - 2..k];
      assert s[k] == x[k - 2];
      CloseBoldAt(s, x, rest, k + 1);
    }
  }

  /** No closing marker is found from k on when a line terminator comes first. */
  lemma {:induction false} CloseBoldStops(s: string, x: string, t: char, y: string, k: nat)
    requires s == BoldMarker + x + [t] + y
    requires SingleLine(x) && !Includes(x, BoldMarker) && IsLineTerminator(t)
    requires 2 <= k <= 2 + |x|
    ensures CloseBold(s, k).None?
    decreases 2 + |x| - k
  {
    if k == 2 + |x| {
      assert s[k] == t;
    } else {
      assert s[k] == x[k - 2];
      if k + 2 <= |s| {
        if k - 2 + 2 <= |x| {
          assert s[k..k + 2] == x[k - 2..k];
          assert !OccursAt(x, BoldMarker, k - 2);
        } else {
          assert s[k + 1] == t;
        }
      }
      CloseBoldStops(s, x, t, y, k + 1);
    }
  }

  /**
   * A line terminator ends a bold span: when the line after an opening marker
   * holds no closing marker, that marker is not matched and its first star is
   * kept as text.
   */
  lemma BoldNeedsOneLine(x: string, t: char, y: string)
    requires SingleLine(x) && !Includes(x, BoldMarker) && IsLineTerminator(t)
    ensures CloseBold(BoldMarker + x + [t] + y, 2).None?
    ensures Bold(BoldMarker + x + [t] + y) == "*" + Bold("*" + x + [t] + y)
  {
    var s := BoldMarker + x + [t] + y;
    CloseBoldStops(s, x, t, y, 2);
    assert s[1..] == "*" + x + [t] + y;
  }

  /** A non-empty backtick-free span between backticks, new lines included, becomes one code element. */
  lemma CodePair(x: string, rest: string)
    requires x != []
    requires forall i :: 0 <= i < |x| ==> x[i] != '`'
    ensures Code("`" + x + "`" + rest) == CodeOpen + x + CodeClose + Code(rest)
  {
    var s := "`" + x + "`" + rest;
    NextBacktickAt(s, x, rest, 1);
    assert s[1..1 + |x|] == x;
    assert s[1 + |x| + 1..] == rest;
  }

  lemma {:induction false} NextBacktickAt(s: string, x: string, rest: string, k: nat)
    requires s == "`" + x + "`" + rest
    requires 1 <= k <= 1 + |x|
    requires forall i :: 0 <= i < |x| ==> x[i] != '`'
    ensures NextBacktick(s, k) == Some(1 + |x|)
    decreases 1 + |x| - k
  {
    if k < 1 + |x| {
      assert s[k] == x[k - 1];
      NextBacktickAt(s, x, rest, k + 1);
    }
  }

  /**
   * An empty backtick pair opens no code element: its first backtick is kept
   * as text and the second one may still open a span with what follows.
   */
  lemma EmptyCodeKept(rest: string)
    ensures Code("``" + rest) == "`" + Code("`" + rest)
  {
    var s := "``" + rest;
    assert s[1] == '`';
    assert NextBacktick(s, 1) == Some(1);
    assert s[1..] == "`" + rest;
  }

  /** The heading rewrite copies text without `#` and carries on after it: the marker need not start a line. */
  lemma {:induction false} HeadingsPassThrough(p: string, s: string)
    requires forall i :: 0 <= i < |p| ==> p[i] != '#'
    ensures Headings(p + s) == p + Headings(s)
    decreases |p|
  {
    if p == [] {
      ConcatCons(p, s);
    } else {
      ConcatCons(p, s);
      HeadingsStep(p + s);
      HeadingsPassThrough(p[1..], s);
      ConcatCons(p, Headings(s));
    }
  }

  /** Concatenation seen from its first element. */
  lemma ConcatCons(p: string, s: string)
    ensures p == [] ==> p + s == s
    ensures p != [] ==> (p + s)[0] == p[0] && (p + s)[1..] == p[1..] + s && [p[0]] + (p[1..] + s) == p + s
  {
    if p != [] {
      assert [p[0]] + p[1..] == p;
    }
  }

  /** One character that cannot start a marker is copied as is. */
  lemma HeadingsStep(s: string)
    requires s != [] && s[0] != '#'
    ensures Headings(s) == [s[0]] + Headings(s[1..])
  {
    if |s| >= 3 {
      assert s[..3][0] == s[0] != HeadingMarker[0];
    }
  }

  /** The bold rewrite copies text without `*` and carries on after it. */
  lemma {:induction false} BoldPassThrough(p: string, s: string)
    requires forall i :: 0 <= i < |p| ==> p[i] != '*'
    ensures Bold(p + s) == p + Bold(s)
    decreases |p|
  {
    if p == [] {
      ConcatCons(p, s);
    } else {
      ConcatCons(p, s);
      BoldStep(p + s);
      BoldPassThrough(p[1..], s);
      ConcatCons(p, Bold(s));
    }
  }

  /** One character that cannot start a marker is copied as is. */
  lemma BoldStep(s: string)
    requires s != [] && s[0] != '*'
    ensures Bold(s) == [s[0]] + Bold(s[1..])
  {
    if |s| >= 2 {
      assert s[..2][0] == s[0] != BoldMarker[0];
    }
  }

  /** The code rewrite copies text without a backtick and carries on after it. */
  lemma {:induction false} CodePassThrough(p: string, s: string)
    requires forall i :: 0 <= i < |p| ==> p[i] != '`'
    ensures Code(p + s) == p + Code(s)
    decreases |p|
  {
    if p == [] {
      ConcatCons(p, s);
    } else {
      ConcatCons(p, s);
      CodeStep(p + s);
      CodePassThrough(p[1..], s);
      ConcatCons(p, Code(s));
    }
  }

  /** One character that cannot start a marker is copied as is. */
  lemma CodeStep(s: string)
    requires s != [] && s[0] != '`'
    ensures Code(s) == [s[0]] + Code(s[1..])
  {
  }

  /** A heading after ordinary text, on any line, is rewritten too: the match is global and unanchored. */
  lemma HeadingAfterText(p: string, x: string, rest: string)
    requires forall i :: 0 <= i < |p| ==> p[i] != '#'
    requires SingleLine(x)
    requires rest == [] || IsLineTerminator(rest[0])
    ensures Headings(p + (HeadingMarker + x + rest)) == p + (H2Open + x + H2Close + Headings(rest))
  {
    HeadingsPassThrough(p, HeadingMarker + x + rest);
    HeadingLine(x, rest);
  }
}
