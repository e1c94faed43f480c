/**
 * A view of a project: the displays it shows, the image transformations
 * it applies, and the rule that decides which display or transformation
 * opens each image. Later entries override earlier ones, and
 * transformations override displays.
 */
module ViewModel {
  import opened Common

  /** A display, as far as `getImages` reads it: the names of the images it shows. */
  datatype Display = Display(sources: seq<string>)

  /** An image transformation, as far as `getImages` reads it: the images it targets. */
  datatype Transformation = Transformation(targetImageNames: seq<string>)

  /** The viewer's affine transform, carried but never interpreted here. */
  datatype ViewerTransform = ViewerTransform(parameters: seq<real>)

  datatype OpenerKind = DisplayKind | TransformationKind

  /** The object that opens an image: the display or transformation at `index` of its list. */
  datatype Opener = Opener(kind: OpenerKind, index: nat)

  /**
   * The index of the last list among the first `n` that contains `name`,
   * if there is one.
   */
  function LastListing(lists: seq<seq<string>>, name: string, n: nat): (r: Option<nat>)
    requires n <= |lists|
    ensures r.Some? ==> r.value < n && name in lists[r.value]
    ensures r.Some? ==> forall j :: r.value < j < n ==> name !in lists[j]
    ensures r.None? ==> forall j :: 0 <= j < n ==> name !in lists[j]
  {
    if n == 0 then None
    else if name in lists[n - 1] then Some(n - 1)
    else LastListing(lists, name, n - 1)
  }

  /** Every name of list i put into `base` with opener (kind, i), for i from 0 to n - 1 in order. */
  function Assign(base: map<string, Opener>, lists: seq<seq<string>>, kind: OpenerKind, n: nat): map<string, Opener>
    requires n <= |lists|
  {
    if n == 0 then base
    else PutNames(Assign(base, lists, kind, n - 1), lists[n - 1], Opener(kind, n - 1))
  }

  /** `put(name, opener)` for each name of `names`, first to last. */
  function PutNames(m: map<string, Opener>, names: seq<string>, opener: Opener): map<string, Opener>
    decreases |names|
  {
    if |names| == 0 then m else PutNames(m[names[0] := opener], names[1..], opener)
  }

  /** The names put are keys mapped to the opener; every other entry is unchanged. */
  lemma {:induction false} PutNamesLookup(m: map<string, Opener>, names: seq<string>, opener: Opener, name: string)
    ensures name in PutNames(m, names, opener) <==> name in m || name in names
    ensures name in names ==> PutNames(m, names, opener)[name] == opener
    ensures name !in names && name in m ==> PutNames(m, names, opener)[name] == m[name]
    decreases |names|
  {
    if |names| > 0 {
      PutNamesLookup(m[names[0] := opener], names[1..], opener, name);
      assert name in names <==> name == names[0] || name in names[1..];
    }
  }

  /**
   * After the puts, a name is a key when it was one already or some list
   * names it; the last list naming it wins, and a name no list mentions
   * keeps its old entry.
   */
  lemma {:induction false} AssignLookup(base: map<string, Opener>, lists: seq<seq<string>>, kind: OpenerKind, n: nat, name: string)
    requires n <= |lists|
    ensures name in Assign(base, lists, kind, n) <==> name in base || LastListing(lists, name, n).Some?
    ensures LastListing(lists, name, n).Some? ==>
      Assign(base, lists, kind, n)[name] == Opener(kind, LastListing(lists, name, n).value)
    ensures LastListing(lists, name, n).None? && name in base ==>
      Assign(base, lists, kind, n)[name] == base[name]
  {
    if n > 0 {
      AssignLookup(base, lists, kind, n - 1, name);
      PutNamesLookup(Assign(base, lists, kind, n - 1), lists[n - 1], Opener(kind, n - 1), name);
    }
  }

  function DisplaySources(displays: seq<Display>): (lists: seq<seq<string>>)
    ensures |lists| == |displays|
  {
    seq(|displays|, i requires 0 <= i < |displays| => displays[i].sources)
  }

  function TransformationTargets(transformations: seq<Transformation>): (lists: seq<seq<string>>)
    ensures |lists| == |transformations|
  {
    seq(|transformations|, i requires 0 <= i < |transformations| => transformations[i].targetImageNames)
  }

  /** The map `getImages` builds: all display puts first, then all transformation puts. */
  function ImagesOf(displays: seq<Display>, transformations: seq<Transformation>): map<string, Opener>
  {
    var afterDisplays := Assign(map[], DisplaySources(displays), DisplayKind, |displays|);
    Assign(afterDisplays, TransformationTargets(transformations), TransformationKind, |transformations|)
  }

  /** The images of a view are exactly the names its displays show or its transformations target. */
  lemma ImagesKeys(displays: seq<Display>, transformations: seq<Transformation>, name: string)
    ensures name in ImagesOf(displays, transformations) <==>
      (exists i :: 0 <= i < |displays| && name in displays[i].sources)
      || (exists j :: 0 <= j < |transformations| && name in transformations[j].targetImageNames)
  {
    var displayLists := DisplaySources(displays);
    var transformLists := TransformationTargets(transformations);
    var afterDisplays := Assign(map[], displayLists, DisplayKind, |displays|);
    AssignLookup(map[], displayLists, DisplayKind, |displays|, name);
    AssignLookup(afterDisplays, transformLists, TransformationKind, |transformations|, name);
    var d := LastListing(displayLists, name, |displays|);
    var t := LastListing(transformLists, name, |transformations|);
    if d.Some? {
      assert name in displays[d.value].sources;
    }
    if t.Some? {
      assert name in transformations[t.value].targetImageNames;
    }
    if d.None? {
      assert forall i :: 0 <= i < |displays| ==> name !in displays[i].sources by {
        assert forall i :: 0 <= i < |displays| ==> displayLists[i] == displays[i].sources;
      }
    }
    if t.None? {
      assert forall j :: 0 <= j < |transformations| ==> name !in transformations[j].targetImageNames by {
        assert forall j :: 0 <= j < |transformations| ==> transformLists[j] == transformations[j].targetImageNames;
      }
    }
  }

  /**
   * A name targeted by a transformation is opened by the last
   * transformation targeting it, whatever the displays say.
   */
  lemma TransformationWins(displays: seq<Display>, transformations: seq<Transformation>, name: string, j: nat)
    requires j < |transformations| && name in transformations[j].targetImageNames
    requires forall k :: j < k < |transformations| ==> name !in transformations[k].targetImageNames
    ensures name in ImagesOf(displays, transformations)
    ensures ImagesOf(displays, transformations)[name] == Opener(TransformationKind, j)
  {
    var transformLists := TransformationTargets(transformations);
    var afterDisplays := Assign(map[], DisplaySources(displays), DisplayKind, |displays|);
    AssignLookup(afterDisplays, transformLists, TransformationKind, |transformations|, name);
    var t := LastListing(transformLists, name, |transformations|);
    assert name in transformLists[j];
  }

  /**
   * A name no transformation targets is opened by the last display
   * showing it.
   */
  lemma LastDisplayWins(displays: seq<Display>, transformations: seq<Transformation>, name: string, i: nat)
    requires i < |displays| && name in displays[i].sources
    requires forall k :: i < k < |displays| ==> name !in displays[k].sources
    requires forall k :: 0 <= k < |transformations| ==> name !in transformations[k].targetImageNames
    ensures name in ImagesOf(displays, transformations)
    ensures ImagesOf(displays, transformations)[name] == Opener(DisplayKind, i)
  {
    var displayLists := DisplaySources(displays);
    var transformLists := TransformationTargets(transformations);
    var afterDisplays := Assign(map[], displayLists, DisplayKind, |displays|);
    AssignLookup(map[], displayLists, DisplayKind, |displays|, name);
    AssignLookup(afterDisplays, transformLists, TransformationKind, |transformations|, name);
    var d := LastListing(displayLists, name, |displays|);
    assert name in displayLists[i];
  }

  /** `View`: the displays and transformations a view lists, possibly null. */
  class View {
    var uiSelectionGroup: string
    var sourceDisplays: Option<seq<Display>>
    var sourceTransforms: Option<seq<Transformation>>
    var viewerTransform: Option<ViewerTransform>
    var isExclusive: bool
    var name: Option<string>

    /** The five-argument constructor; the name stays null. */
    constructor (uiSelectionGroup: string, displays: Option<seq<Display>>, sourceTransforms: Option<seq<Transformation>>,
                 viewerTransform: Option<ViewerTransform>, isExclusive: bool)
      ensures this.uiSelectionGroup == uiSelectionGroup && this.sourceDisplays == displays
      ensures this.sourceTransforms == sourceTransforms && this.viewerTransform == viewerTransform
      ensures this.isExclusive == isExclusive && this.name == None
    {
      this.uiSelectionGroup := uiSelectionGroup;
      this.sourceDisplays := displays;
      this.sourceTransforms := sourceTransforms;
      this.viewerTransform := viewerTransform;
      this.isExclusive := isExclusive;
      this.name := None;
    }

    /** The four-argument constructor: no viewer transform, no name. */
    constructor WithoutViewerTransform(uiSelectionGroup: string, displays: Option<seq<Display>>,
                                       sourceTransforms: Option<seq<Transformation>>, isExclusive: bool)
      ensures this.uiSelectionGroup == uiSelectionGroup && this.sourceDisplays == displays
      ensures this.sourceTransforms == sourceTransforms && this.viewerTransform == None
      ensures this.isExclusive == isExclusive && this.name == None
    {
      this.uiSelectionGroup := uiSelectionGroup;
      this.sourceDisplays := displays;
      this.sourceTransforms := sourceTransforms;
      this.viewerTransform := None;
      this.isExclusive := isExclusive;
      this.name := None;
    }

    /** `getTransformations`: a null list reads as empty. */
    function GetTransformations(): (r: seq<Transformation>)
      reads this
      ensures sourceTransforms.None? ==> r == []
      ensures sourceTransforms.Some? ==> r == sourceTransforms.value
    {
      if sourceTransforms.None? then [] else sourceTransforms.value
    }

    /** `getSourceDisplays`: a null list reads as empty. */
    function GetSourceDisplays(): (r: seq<Display>)
      reads this
      ensures sourceDisplays.None? ==> r == []
      ensures sourceDisplays.Some? ==> r == sourceDisplays.value
    {
      if sourceDisplays.None? then [] else sourceDisplays.value
    }

    /** `setName`. */
    method SetName(name: string)
      modifies this
      ensures this.name == Some(name)
      ensures uiSelectionGroup == old(uiSelectionGroup) && sourceDisplays == old(sourceDisplays)
      ensures sourceTransforms == old(sourceTransforms) && viewerTransform == old(viewerTransform)
      ensures isExclusive == old(isExclusive)
    {
      this.name := Some(name);
    }

    /**
     * `getImages`: put every display's images with that display, then
     * every transformation's targets with that transformation.
     */
    method GetImages() returns (sources: map<string, Opener>)
      ensures sources == ImagesOf(GetSourceDisplays(), GetTransformations())
    {
      sources := map[];
      var displays := GetSourceDisplays();
      var displayLists := DisplaySources(displays);
      for i := 0 to |displays|
        invariant sources == Assign(map[], displayLists, DisplayKind, i)
      {
        sources := PutAll(sources, displays[i].sources, Opener(DisplayKind, i));
      }
      var transformations := GetTransformations();
      var transformLists := TransformationTargets(transformations);
      ghost var afterDisplays := sources;
      for j := 0 to |transformations|
        invariant sources == Assign(afterDisplays, transformLists, TransformationKind, j)
      {
        sources := PutAll(sources, transformations[j].targetImageNames, Opener(TransformationKind, j));
      }
    }
  }

  /** The inner loop of `getImages`: put each name with the same opener. */
  method PutAll(sources: map<string, Opener>, names: seq<string>, opener: Opener) returns (r: map<string, Opener>)
    ensures r == PutNames(sources, names, opener)
  {
    r := sources;
    for k := 0 to |names|
      invariant PutNames(r, names[k..], opener) == PutNames(sources, names, opener)
    {
      assert names[k..][1..] == names[k + 1..];
      r := r[names[k] := opener];
    }
  }
}
