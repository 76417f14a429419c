/**
 * The page shell: the navigation sets the current section directly, and on
 * every scroll the current section becomes the first section, in page order,
 * whose vertical extent contains a point one third down the viewport.
 */
module App {
  import opened Wrappers

  /** The section ids, in the order the scroll handler tries them. */
  const Sections: seq<string> := ["home", "blog", "projects", "plan", "chatnotes", "resources"]

  /** The layout of a section element: its top offset and its height, in pixels. */
  datatype Extent = Extent(offsetTop: int, offsetHeight: int)

  /** The probe point of the scroll handler. */
  function ScrollPosition(scrollY: real, innerHeight: real): (pos: real)
    ensures innerHeight >= 0.0 ==> scrollY <= pos <= scrollY + innerHeight
    ensures pos - scrollY == innerHeight / 3.0
  {
    scrollY + innerHeight / 3.0
  }

  /** Whether pos lies in the half-open interval [top, top + height). */
  predicate Within(e: Extent, pos: real) {
    pos >= e.offsetTop as real && pos < (e.offsetTop + e.offsetHeight) as real
  }

  /** Whether the section id has an element whose extent contains pos. */
  predicate Hit(elements: map<string, Extent>, id: string, pos: real) {
    id in elements && Within(elements[id], pos)
  }

  /** The first id of ids that is hit, if any. */
  function Resolve(elements: map<string, Extent>, ids: seq<string>, pos: real): (r: Option<string>)
    ensures r.Some? ==> r.value in ids && Hit(elements, r.value, pos)
    ensures r.None? <==> forall j :: 0 <= j < |ids| ==> !Hit(elements, ids[j], pos)
    decreases |ids|
  {
    if ids == [] then None
    else if Hit(elements, ids[0], pos) then Some(ids[0])
    else
      var r := Resolve(elements, ids[1..], pos);
      assert forall j :: 1 <= j < |ids| ==> ids[j] == ids[1..][j - 1];
      r
  }

  /** The resolver picks the earliest hit id: earlier ids are all missed. */
  lemma {:induction false} ResolveFirst(elements: map<string, Extent>, ids: seq<string>, pos: real, k: nat)
    requires k < |ids| && Hit(elements, ids[k], pos)
    requires forall j :: 0 <= j < k ==> !Hit(elements, ids[j], pos)
    ensures Resolve(elements, ids, pos) == Some(ids[k])
    decreases k
  {
    if k > 0 {
      ResolveFirst(elements, ids[1..], pos, k - 1);
    }
  }

  /** The bottom edge of a section belongs to the next section, not to this one. */
  lemma HalfOpen(e: Extent, pos: real)
    requires pos == (e.offsetTop + e.offsetHeight) as real
    ensures !Within(e, pos)
    ensures e.offsetHeight > 0 ==> Within(e, e.offsetTop as real)
  {
  }

  /** A section without an element is never picked, whatever its neighbours' extents. */
  lemma MissingSkipped(elements: map<string, Extent>, ids: seq<string>, pos: real, id: string)
    requires id !in elements
    ensures Resolve(elements, ids, pos) != Some(id)
  {
  }

  /** Two sections whose extents do not overlap are never both candidates for one position. */
  lemma DisjointUnique(elements: map<string, Extent>, pos: real, a: string, b: string)
    requires a in elements && b in elements
    requires elements[a].offsetTop + elements[a].offsetHeight <= elements[b].offsetTop
    ensures !(Hit(elements, a, pos) && Hit(elements, b, pos))
  {
  }

  class Shell {
    /** The id the navigation highlights. */
    var currentSection: string

    /** On mount the landing section is current. */
    constructor ()
      ensures currentSection == "home"
    {
      currentSection := "home";
    }

    /**
     * The navigation handler: the given id becomes current whether or not an
     * element carries it; the result tells whether an element was scrolled into view.
     */
    method SectionChange(id: string, elements: map<string, Extent>) returns (scrolled: bool)
      modifies this
      ensures currentSection == id
      ensures scrolled <==> id in elements
    {
      currentSection := id;
      scrolled := id in elements;
    }

    /**
     * The scroll handler: the first listed section whose element contains the
     * probe point becomes current; when none does, the current section stays.
     */
    method Scroll(elements: map<string, Extent>, scrollY: real, innerHeight: real)
      modifies this
      ensures Resolve(elements, Sections, ScrollPosition(scrollY, innerHeight)).Some? ==>
                currentSection == Resolve(elements, Sections, ScrollPosition(scrollY, innerHeight)).value
      ensures Resolve(elements, Sections, ScrollPosition(scrollY, innerHeight)).None? ==>
                currentSection == old(currentSection)
    {
      var pos := ScrollPosition(scrollY, innerHeight);
      var i := 0;
      while i < |Sections|
        invariant 0 <= i <= |Sections|
        invariant Resolve(elements, Sections[i..], pos) == Resolve(elements, Sections, pos)
        invariant currentSection == old(currentSection)
        decreases |Sections| - i
      {
        var id := Sections[i];
        assert Sections[i..][1..] == Sections[i + 1..];
        if id in elements {
          var e := elements[id];
          if pos >= e.offsetTop as real && pos < (e.offsetTop + e.offsetHeight) as real {
            currentSection := id;
            return;
          }
        }
        i := i + 1;
      }
    }
  }

  /** Whatever the scroll handler sets is one of the six listed ids. */
  lemma ScrollSetsListedId(elements: map<string, Extent>, pos: real)
    ensures Resolve(elements, Sections, pos).Some? ==> Resolve(elements, Sections, pos).value in Sections
    ensures Resolve(elements, Sections, pos).Some? ==>
              Hit(elements, Resolve(elements, Sections, pos).value, pos)
  {
  }
}
