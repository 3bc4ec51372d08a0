/**
 The immutable page descriptor shared by the collector and the generator: a page's
 qualified class name and its `@Param` fields in declaration order. The page's simple
 name is not part of it; that is the key under which the collector files it.
 Being a datatype, equality is structural over both components, as for a Java record.
 */
module PageDescriptors {
  import opened Elements

  datatype PageData = PageData(qualifiedName: string, params: seq<Element>)

  /** The names of the parameters, in the order they are given. */
  function ParamNames(params: seq<Element>): (names: seq<string>)
    ensures |names| == |params|
    ensures forall i | 0 <= i < |params| :: names[i] == params[i].simpleName
  {
    seq(|params|, i requires 0 <= i < |params| => params[i].simpleName)
  }
}
