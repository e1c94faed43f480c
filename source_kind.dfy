/**
 * The shape of a bdv source as far as the grid sources' `instanceOf` tests
 * look at it: plain images, the two grid source classes, and the label and
 * transform wrappers that can sit around them.
 */
module SourceKinds {

  datatype GridKind = MergedGridKind | FRAGridKind

  datatype SourceKind =
    | Image                              // any source that is not a grid source
    | Grid(kind: GridKind)
    | Label(wrapped: SourceKind)         // LabelSource
    | Transformed(wrapped: SourceKind)   // TransformedSource
    | Cropped(wrapped: SourceKind)       // CroppedSource: never unwrapped

  /**
   * `instanceOf`: unwrap one label wrapper if there is one, test, unwrap one
   * transform wrapper if there is one, test again. Exactly four shapes pass:
   * the grid itself, a labelled grid, a transformed grid, and a labelled
   * transformed grid; deeper or differently ordered nesting does not.
   */
  function InstanceOf(source: SourceKind, kind: GridKind): (r: bool)
    ensures r <==> (|| source == Grid(kind)
                    || source == Label(Grid(kind))
                    || source == Transformed(Grid(kind))
                    || source == Label(Transformed(Grid(kind))))
  {
    var unlabelled := if source.Label? then source.wrapped else source;
    if unlabelled == Grid(kind) then true
    else
      var untransformed := if unlabelled.Transformed? then unlabelled.wrapped else unlabelled;
      untransformed == Grid(kind)
  }
}
