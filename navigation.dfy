/**
 * `navigateToSubcluster`: the page a click on a cell, point or node leads to,
 * `../../clusters/<primary slug>/<subcluster slug>.html`. The assignment to
 * `window.location.href` is the model's result.
 */
module Navigation {
  import opened VizData
  import opened Sequences
  import opened Slug

  const ClustersRoot: string := "../../clusters/"
  const PageSuffix: string := ".html"

  /** Entry i is the first one of coords whose id is `id`. */
  predicate IsFirstWithId(coords: seq<Point>, id: string, i: int) {
    0 <= i < |coords| && coords[i].id == id && forall j :: 0 <= j < i ==> coords[j].id != id
  }

  /** At most one entry is the first one with a given id. */
  lemma FirstWithIdIsUnique(coords: seq<Point>, id: string)
    ensures forall i, j :: IsFirstWithId(coords, id, i) && IsFirstWithId(coords, id, j) ==> i == j
  {
  }

  /** `coords.find(c => c.id === id)`: the first entry with that id. */
  function FindById(coords: seq<Point>, id: string): (r: Option<Point>)
    ensures r.None? <==> forall i :: 0 <= i < |coords| ==> coords[i].id != id
    ensures r.Some? ==> exists i :: IsFirstWithId(coords, id, i) && coords[i] == r.value
  {
    if coords == [] then None
    else if coords[0].id == id then
      assert IsFirstWithId(coords, id, 0);
      Some(coords[0])
    else
      var r := FindById(coords[1..], id);
      if r.None? then r
      else
        var i :| IsFirstWithId(coords[1..], id, i) && coords[1..][i] == r.value;
        assert IsFirstWithId(coords, id, i + 1);
        r
  }

  /**
   * `window.allCoords?.find(c => c.id === id)?.name || id`: the name of the
   * first coordinate entry with the id, or the id itself when the coordinates
   * are not loaded, no entry has the id, or that entry's name is empty.
   */
  function SubclusterName(allCoords: Option<seq<Point>>, id: string): (name: string)
    ensures allCoords.None? ==> name == id
    ensures allCoords.Some? && (forall i :: 0 <= i < |allCoords.value| ==> allCoords.value[i].id != id) ==> name == id
    ensures allCoords.Some? ==> forall i :: IsFirstWithId(allCoords.value, id, i) ==>
      name == if allCoords.value[i].name != "" then allCoords.value[i].name else id
  {
    match allCoords
    case None => id
    case Some(coords) =>
      FirstWithIdIsUnique(coords, id);
      match FindById(coords, id)
      case None => id
      case Some(p) => if p.name != "" then p.name else id
  }

  /** The target page of a click on subcluster `id` of the primary group `primaryName`. */
  function NavigationPath(id: string, primaryName: string, allCoords: Option<seq<Point>>): (path: string)
    ensures ParseClusterPath(path) == Some((Slugify(primaryName), Slugify(SubclusterName(allCoords, id))))
  {
    var primarySlug := Slugify(primaryName);
    var subSlug := Slugify(SubclusterName(allCoords, id));
    PathRoundTrip(primarySlug, subSlug);
    ClustersRoot + primarySlug + "/" + subSlug + PageSuffix
  }

  /**
   * Reads a page path back into its two slug segments; None for a path that is
   * not of the form `../../clusters/<slug>/<slug>.html`.
   */
  function ParseClusterPath(path: string): Option<(string, string)> {
    if |path| < |ClustersRoot| + 1 + |PageSuffix| then None
    else if path[..|ClustersRoot|] != ClustersRoot || path[|path| - |PageSuffix|..] != PageSuffix then None
    else
      var middle := path[|ClustersRoot|..|path| - |PageSuffix|];
      var k := IndexOf(middle, '/');
      if k < 0 then None
      else
        var primarySlug, subSlug := middle[..k], middle[k + 1..];
        if IsSlug(primarySlug) && IsSlug(subSlug) then Some((primarySlug, subSlug)) else None
  }

  /** The three parts of `pre + mid + suf` are read back by slicing at the lengths of pre and suf. */
  lemma FrameParts(pre: string, mid: string, suf: string)
    ensures var t := pre + mid + suf;
      && t[..|pre|] == pre
      && t[|t| - |suf|..] == suf
      && t[|pre|..|t| - |suf|] == mid
  {
  }

  /** In `a + "/" + b` with no `/` in a, the first `/` is the one between a and b. */
  lemma SplitAtSlash(a: string, b: string)
    requires forall i :: 0 <= i < |a| ==> a[i] != '/'
    ensures var m := a + "/" + b;
      && IndexOf(m, '/') == |a|
      && m[..|a|] == a
      && m[|a| + 1..] == b
  {
    var m := a + "/" + b;
    assert m[|a|] == '/';
    assert forall i :: 0 <= i < |a| ==> m[i] == a[i];
  }

  /** Two slugs joined into a page path are read back unchanged. */
  lemma PathRoundTrip(primarySlug: string, subSlug: string)
    requires IsSlug(primarySlug) && IsSlug(subSlug)
    ensures ParseClusterPath(ClustersRoot + primarySlug + "/" + subSlug + PageSuffix) == Some((primarySlug, subSlug))
  {
    var middle := primarySlug + "/" + subSlug;
    var path := ClustersRoot + primarySlug + "/" + subSlug + PageSuffix;
    assert path == ClustersRoot + middle + PageSuffix;
    FrameParts(ClustersRoot, middle, PageSuffix);
    SplitAtSlash(primarySlug, subSlug);
  }

  /** Every path the parser accepts is the one built from the two segments it returns. */
  lemma ParsedPathRebuilds(path: string)
    requires ParseClusterPath(path).Some?
    ensures var (primarySlug, subSlug) := ParseClusterPath(path).value;
      IsSlug(primarySlug) && IsSlug(subSlug) &&
      path == ClustersRoot + primarySlug + "/" + subSlug + PageSuffix
  {
    var i, j := |ClustersRoot|, |path| - |PageSuffix|;
    var middle := path[i..j];
    var k := IndexOf(middle, '/');
    AcceptedPathParts(path);
    Reassemble(path, i, j);
    RejoinAtSlash(ClustersRoot, middle, PageSuffix, path, k);
  }

  /** What the parser has checked of a path it accepts. */
  lemma AcceptedPathParts(path: string)
    requires ParseClusterPath(path).Some?
    ensures path[..|ClustersRoot|] == ClustersRoot && path[|path| - |PageSuffix|..] == PageSuffix
    ensures var middle := path[|ClustersRoot|..|path| - |PageSuffix|];
      var k := IndexOf(middle, '/');
      0 <= k < |middle| && ParseClusterPath(path).value == (middle[..k], middle[k + 1..])
  {
  }

  /** A sequence is the concatenation of its three slices at i and j. */
  lemma Reassemble(t: string, i: nat, j: nat)
    requires i <= j <= |t|
    ensures t == t[..i] + t[i..j] + t[j..]
  {
  }

  /** Splitting the middle part at a `/` and joining it back gives the same path. */
  lemma RejoinAtSlash(pre: string, middle: string, suf: string, path: string, k: int)
    requires path == pre + middle + suf
    requires 0 <= k < |middle| && middle[k] == '/'
    ensures path == pre + middle[..k] + "/" + middle[k + 1..] + suf
  {
    assert middle == middle[..k] + "/" + middle[k + 1..];
  }

  /** Distinct pairs of names that slugify differently lead to different pages. */
  lemma NavigationPathDeterminesSlugs(id: string, primaryName: string, id': string, primaryName': string,
                                      allCoords: Option<seq<Point>>)
    requires NavigationPath(id, primaryName, allCoords) == NavigationPath(id', primaryName', allCoords)
    ensures Slugify(primaryName) == Slugify(primaryName')
    ensures Slugify(SubclusterName(allCoords, id)) == Slugify(SubclusterName(allCoords, id'))
  {
  }
}
