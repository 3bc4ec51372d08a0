/**
 The metadata collection pass of the navigation annotation processor: it keeps the
 `@Page` elements whose kind is a class, files each under its simple name, and records
 its `@Param` fields in declaration order. It then hands the complete map to the
 generator once and reports the annotations as handled.
 */
module Processor {
  import opened Seqs
  import opened Elements
  import opened PageDescriptors
  import Generator

  /** An enclosed element is a navigation parameter when it is a field carrying `@Param`. */
  predicate IsParam(e: Element) {
    e.kind == Field && ParamMarker in e.annotations
  }

  /** The `@Param` fields among `enclosed`, in the order they are enclosed. */
  function CollectParams(enclosed: seq<Element>): (params: seq<Element>)
    ensures |params| <= |enclosed|
    ensures forall p <- params :: IsParam(p) && p in enclosed
    ensures forall e <- enclosed :: IsParam(e) ==> e in params
  {
    if enclosed == [] then []
    else (if IsParam(enclosed[0]) then [enclosed[0]] else []) + CollectParams(enclosed[1..])
  }

  /** Collecting over two consecutive runs of declarations concatenates their parameters,
      so the collector keeps declaration order and never reorders across fields. */
  lemma {:induction false} CollectParamsAppend(a: seq<Element>, b: seq<Element>)
    ensures CollectParams(a + b) == CollectParams(a) + CollectParams(b)
    decreases |a|
  {
    if a == [] {
      assert a + b == b;
    } else {
      assert (a + b)[1..] == a[1..] + b;
      CollectParamsAppend(a[1..], b);
    }
  }

  /** A single declaration contributes itself exactly when it is a `@Param` field. */
  lemma CollectParamsSingle(e: Element)
    ensures CollectParams([e]) == if IsParam(e) then [e] else []
  {
    assert [e][1..] == [];
  }

  /** Declarations that are not `@Param` fields, such as an unannotated field or a
      method, contribute nothing. */
  lemma {:induction false} CollectParamsNone(enclosed: seq<Element>)
    requires forall e <- enclosed :: !IsParam(e)
    ensures CollectParams(enclosed) == []
    decreases |enclosed|
  {
    if enclosed != [] {
      assert forall e <- enclosed[1..] :: e in enclosed;
      CollectParamsNone(enclosed[1..]);
    }
  }

  /** The parameters of a well-formed class have pairwise distinct names. */
  lemma {:induction false} CollectParamsDistinct(enclosed: seq<Element>)
    requires forall i, j | 0 <= i < j < |enclosed| ::
      enclosed[i].kind == Field && enclosed[j].kind == Field ==>
        enclosed[i].simpleName != enclosed[j].simpleName
    ensures Distinct(ParamNames(CollectParams(enclosed)))
    decreases |enclosed|
  {
    if enclosed != [] {
      var rest := enclosed[1..];
      assert forall i, j | 0 <= i < j < |rest| :: rest[i] == enclosed[i + 1] && rest[j] == enclosed[j + 1];
      CollectParamsDistinct(rest);
      var tail := CollectParams(rest);
      if IsParam(enclosed[0]) {
        var names := ParamNames([enclosed[0]] + tail);
        forall i, j | 0 <= i < j < |names|
          ensures names[i] != names[j]
        {
          if i == 0 {
            var p := tail[j - 1];
            assert p in rest;
            var k :| 0 <= k < |rest| && rest[k] == p;
            assert enclosed[k + 1] == p;
          } else {
            assert names[i] == ParamNames(tail)[i - 1];
            assert names[j] == ParamNames(tail)[j - 1];
          }
        }
      }
    }
  }

  /** The descriptor filed for a class: its qualified name and its `@Param` fields. */
  function Describe(e: Element): (d: PageData)
    ensures d.qualifiedName == e.qualifiedName
    ensures d.params == CollectParams(e.enclosed)
    ensures forall p <- d.params :: p in e.enclosed && p.kind == Field && ParamMarker in p.annotations
    ensures forall f <- e.enclosed :: f.kind == Field && ParamMarker in f.annotations ==> f in d.params
  {
    PageData(e.qualifiedName, CollectParams(e.enclosed))
  }

  /** Only elements of kind CLASS become pages; interfaces, enums, records and the rest
      are skipped even when annotated. */
  predicate IsPageClass(e: Element) {
    e.kind == Class
  }

  /** The simple names of the page classes among `annotated`. */
  function PageNames(annotated: seq<Element>): set<string> {
    set i | 0 <= i < |annotated| && IsPageClass(annotated[i]) :: annotated[i].simpleName
  }

  /** Visiting one more element adds its simple name when it is a class, and nothing
      otherwise. */
  lemma {:induction false} PageNamesSnoc(annotated: seq<Element>)
    requires annotated != []
    ensures var last := annotated[|annotated| - 1];
      PageNames(annotated) == PageNames(annotated[..|annotated| - 1]) + (if IsPageClass(last) then {last.simpleName} else {})
  {
    var init := annotated[..|annotated| - 1];
    var last := annotated[|annotated| - 1];
    forall k | k in PageNames(annotated)
      ensures k in PageNames(init) + (if IsPageClass(last) then {last.simpleName} else {})
    {
      var i :| 0 <= i < |annotated| && IsPageClass(annotated[i]) && annotated[i].simpleName == k;
      if i < |init| {
        assert init[i] == annotated[i];
      }
    }
    forall k | k in PageNames(init)
      ensures k in PageNames(annotated)
    {
      var i :| 0 <= i < |init| && IsPageClass(init[i]) && init[i].simpleName == k;
      assert annotated[i] == init[i];
    }
  }

  /** The page map after visiting `annotated` in order, each class overwriting any
      earlier entry under the same simple name. Its keys are exactly the simple names
      of the annotated classes. */
  function BuildPageMap(annotated: seq<Element>): (pages: map<string, PageData>)
    ensures pages.Keys == PageNames(annotated)
    decreases |annotated|
  {
    if annotated == [] then map[]
    else
      var pages := BuildPageMap(annotated[..|annotated| - 1]);
      var e := annotated[|annotated| - 1];
      PageNamesSnoc(annotated);
      if IsPageClass(e) then pages[e.simpleName := Describe(e)] else pages
  }

  /** Later wins: a class with no later class of the same simple name is the one whose
      descriptor the map holds under that name. */
  lemma {:induction false} PageMapLastWins(annotated: seq<Element>, i: nat)
    requires i < |annotated| && IsPageClass(annotated[i])
    requires forall j | i < j < |annotated| :: IsPageClass(annotated[j]) ==> annotated[j].simpleName != annotated[i].simpleName
    ensures annotated[i].simpleName in BuildPageMap(annotated)
    ensures BuildPageMap(annotated)[annotated[i].simpleName] == Describe(annotated[i])
    decreases |annotated|
  {
    var last := |annotated| - 1;
    if i < last {
      var init := annotated[..last];
      assert init[i] == annotated[i];
      PageMapLastWins(init, i);
    }
  }

  /** Every entry of the map comes from some annotated class of that simple name. */
  lemma {:induction false} PageMapEntriesFromClasses(annotated: seq<Element>, k: string)
    requires k in BuildPageMap(annotated)
    ensures exists i | 0 <= i < |annotated| ::
      IsPageClass(annotated[i]) && annotated[i].simpleName == k && BuildPageMap(annotated)[k] == Describe(annotated[i])
    decreases |annotated|
  {
    var last := |annotated| - 1;
    if !(IsPageClass(annotated[last]) && annotated[last].simpleName == k) {
      var init := annotated[..last];
      PageMapEntriesFromClasses(init, k);
      var i :| 0 <= i < |init| && IsPageClass(init[i]) && init[i].simpleName == k && BuildPageMap(init)[k] == Describe(init[i]);
      assert annotated[i] == init[i];
    }
  }

  /** Every entry is the descriptor of an annotated class filed under its simple name. */
  lemma PageMapEntries(annotated: seq<Element>)
    ensures var pages := BuildPageMap(annotated);
      forall k <- pages :: exists e <- annotated ::
        IsPageClass(e) && e.simpleName == k && pages[k].qualifiedName == e.qualifiedName && pages[k].params == CollectParams(e.enclosed)
  {
    var pages := BuildPageMap(annotated);
    forall k | k in pages
      ensures exists e <- annotated ::
        IsPageClass(e) && e.simpleName == k && pages[k].qualifiedName == e.qualifiedName && pages[k].params == CollectParams(e.enclosed)
    {
      PageMapEntriesFromClasses(annotated, k);
      var n :| 0 <= n < |annotated| && IsPageClass(annotated[n]) && annotated[n].simpleName == k && pages[k] == Describe(annotated[n]);
      assert annotated[n] in annotated;
    }
  }

  /** One more visited element either files its descriptor under its simple name or,
      when it is not a class, leaves the map as it was. */
  lemma PageMapStep(annotated: seq<Element>, i: nat)
    requires i < |annotated|
    ensures var e := annotated[i];
      BuildPageMap(annotated[..i + 1]) ==
        if IsPageClass(e) then BuildPageMap(annotated[..i])[e.simpleName := Describe(e)] else BuildPageMap(annotated[..i])
  {
    assert annotated[..i + 1][..i] == annotated[..i];
  }

  /** The processor's inner loop: keep each enclosed element that is a field carrying
      `@Param`, in order. */
  method CollectParamsLoop(enclosed: seq<Element>) returns (params: seq<Element>)
    ensures params == CollectParams(enclosed)
  {
    params := [];
    var j := 0;
    while j < |enclosed|
      invariant 0 <= j <= |enclosed|
      invariant params == CollectParams(enclosed[..j])
    {
      var enclosedElement := enclosed[j];
      CollectParamsAppend(enclosed[..j], [enclosedElement]);
      CollectParamsSingle(enclosedElement);
      assert enclosed[..j + 1] == enclosed[..j] + [enclosedElement];
      if enclosedElement.kind == Field && ParamMarker in enclosedElement.annotations {
        params := params + [enclosedElement];
      }
      j := j + 1;
    }
    assert enclosed[..j] == enclosed;
  }

  /**
   One processing round: walk the elements annotated `@Page`, build the page map with
   the same loops as the processor, hand the complete map to the generator, and report
   the annotations as claimed.
   */
  method Process(roots: seq<Element>) returns (handled: bool, pages: map<string, PageData>, navigator: map<Generator.MethodName, Generator.MethodSpec>)
    ensures handled
    ensures pages.Keys == PageNames(AnnotatedWith(roots, PageMarker))
    ensures forall k <- pages :: exists e <- AnnotatedWith(roots, PageMarker) ::
      IsPageClass(e) && e.simpleName == k && pages[k].qualifiedName == e.qualifiedName && pages[k].params == CollectParams(e.enclosed)
    ensures pages == BuildPageMap(AnnotatedWith(roots, PageMarker))
    ensures navigator == Generator.GenerateNavigator(pages)
  {
    var annotated := AnnotatedWith(roots, PageMarker);
    pages := map[];
    var i := 0;
    while i < |annotated|
      invariant 0 <= i <= |annotated|
      invariant pages == BuildPageMap(annotated[..i])
    {
      var element := annotated[i];
      PageMapStep(annotated, i);
      if element.kind == Class {
        var params := CollectParamsLoop(element.enclosed);
        pages := pages[element.simpleName := PageData(element.qualifiedName, params)];
      }
      i := i + 1;
    }
    assert annotated[..i] == annotated;
    PageMapEntries(annotated);
    navigator := Generator.GenerateNavigator(pages);
    handled := true;
  }
}
