/**
 The part of the annotation-processing element model the navigation processor reads:
 a declaration's kind, its simple and qualified names, its declared type, the annotations
 it carries and the declarations it encloses, in source order.
 */
module Elements {

  /** The element kinds the processor distinguishes; every other kind is `OtherKind`. */
  datatype ElementKind =
    | Package | Class | Interface | Enum | Record | AnnotationType
    | Field | EnumConstant | Method | Constructor | Parameter | OtherKind

  /** `@Page`, `@Param`, or any other annotation, identified by its name. */
  datatype Annotation = PageMarker | ParamMarker | OtherAnnotation(name: string)

  /** A declared type, kept as an opaque token. */
  datatype TypeRef = TypeRef(name: string)

  datatype Element = Element(
    kind: ElementKind,
    simpleName: string,
    qualifiedName: string,
    asType: TypeRef,
    annotations: set<Annotation>,
    enclosed: seq<Element>)

  /**
   Every element of the trees rooted at `roots`, each tree flattened in pre-order:
   the root, then the trees of the elements it encloses, then the next root.
   */
  function Descendants(roots: seq<Element>): (all: seq<Element>)
    ensures forall e <- roots :: e in all
    ensures forall e <- all :: forall c <- e.enclosed :: c in all
    ensures forall e <- all :: e in roots || exists p <- all :: e in p.enclosed
    decreases roots
  {
    if roots == [] then []
    else
      var e := roots[0];
      assert e in roots;
      [e] + Descendants(e.enclosed) + Descendants(roots[1..])
  }

  /**
   The elements of the trees rooted at `roots` that carry annotation `a`, each tree
   walked in pre-order. The round environment promises only a set; this is one
   admissible iteration order over it.
   */
  function AnnotatedWith(roots: seq<Element>, a: Annotation): (found: seq<Element>)
    ensures forall e <- found :: a in e.annotations && e in Descendants(roots)
    ensures forall e <- Descendants(roots) :: a in e.annotations ==> e in found
    ensures forall e <- roots :: a in e.annotations ==> e in found
    decreases roots
  {
    if roots == [] then []
    else
      var e := roots[0];
      assert e in roots;
      (if a in e.annotations then [e] else []) + AnnotatedWith(e.enclosed, a) + AnnotatedWith(roots[1..], a)
  }

  /** The names of the fields `e` declares, annotated or not. */
  function DeclaredFields(e: Element): set<string> {
    set f <- e.enclosed | f.kind == Field :: f.simpleName
  }

  /** A type declaration as the Java compiler accepts it: no two fields share a name. */
  predicate WellFormedType(e: Element) {
    forall i, j | 0 <= i < j < |e.enclosed| ::
      e.enclosed[i].kind == Field && e.enclosed[j].kind == Field ==>
        e.enclosed[i].simpleName != e.enclosed[j].simpleName
  }
}
