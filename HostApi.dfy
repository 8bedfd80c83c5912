/** The part of the TopSolid automation API the core consults, as plain values: an
    element handle with its empty sentinel, and the host's answers to each query. */
module HostApi {
  import opened Wrappers

  /** `ElementId`: an opaque handle into the host document; `Empty` is `ElementId.Empty`. */
  datatype ElementId = Empty | Handle(key: nat)

  /** The answers the host gives, one function per query. A query that can throw
      answers a `Query`; a list the host may return as `null` answers an `Option`. */
  datatype Host = Host(
    friendlyName: ElementId -> Query<string>,        // TSH.Elements.GetFriendlyName
    typeFullName: ElementId -> Query<string>,        // TSH.Elements.GetTypeFullName
    shapeVolume: ElementId -> Query<real>,           // TSH.Shapes.GetShapeVolume, in m³
    isOperation: ElementId -> bool,                  // TSH.Operations.IsOperation
    isActive: ElementId -> bool,                     // TSH.Operations.IsActive
    children: ElementId -> Option<seq<ElementId>>,   // TSH.Operations.GetChildren
    textValue: ElementId -> Option<string>,          // TSH.Parameters.GetTextValue
    gapText: ElementId -> Query<string>              // (GetRealValue(p) * 1000).ToString()
  )
}
