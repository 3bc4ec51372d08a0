/**
 The code-synthesis pass, kept abstract: instead of Java text, each generated method is a
 name, an ordered parameter list and an ordered list of abstract statements. The
 generated `Navigator` class is a map from method name to method, since the page map is
 iterated in hash order and method order carries no meaning.
 */
module Generator {
  import opened Seqs
  import opened Elements
  import opened PageDescriptors

  /** The statements the generator emits. */
  datatype Statement =
    | NewPage(className: string)   // construct the page class through its no-argument constructor
    | SetField(field: string)      // inject the argument of the same name into the page's field
    | Push                         // push the page on the navigation stack
    | Display                      // call display() on the page
    | ReflectiveSet                // the body of the private setField helper
    | PopOrFail                    // the body of pop()
    | PopUntilOrFail               // the body of popUntil(page)

  /** The methods the generator can emit: one navigation method per page, and three
      shared ones. */
  datatype MethodName = NavToName(page: string) | SetFieldName | PopName | PopUntilName

  datatype Param = Param(name: string, typ: TypeRef)

  datatype MethodSpec = MethodSpec(name: MethodName, params: seq<Param>, body: seq<Statement>)

  const NavToPrefix := "navTo"

  /** The two unqualified identifiers a navigation method's statements use besides its
      parameters: the local page variable and the navigator's stack field. */
  const PageLocal := "page"
  const StackField := "stack"

  /**
   The Java identifier a method is emitted under. What tells the identifiers apart:
   navigation methods start with 'n' and end with their page; the shared ones start
   with 's' or 'p' and differ in length or letter.
   */
  function JavaName(name: MethodName): (id: string)
    ensures |id| >= 3
    ensures name.NavToName? <==> id[0] == 'n'
    ensures name.NavToName? ==> |id| >= |NavToPrefix| && id[|NavToPrefix|..] == name.page
    ensures name == SetFieldName <==> id[0] == 's'
    ensures name == PopName <==> |id| == 3 && id[0] == 'p'
  {
    match name
    case NavToName(page) => NavToPrefix + page
    case SetFieldName => "setField"
    case PopName => "pop"
    case PopUntilName => "popUntil"
  }

  /** Different methods get different Java identifiers: no two pages share a navigation
      method, and no navigation method shadows a shared one. */
  lemma JavaNameInjective(a: MethodName, b: MethodName)
    ensures JavaName(a) == JavaName(b) <==> a == b
  {
  }

  /** Reads a navigation method's page back from its Java identifier. */
  function PageOfJavaName(javaName: string): (page: string)
    requires |javaName| >= |NavToPrefix| && javaName[..|NavToPrefix|] == NavToPrefix
    ensures JavaName(NavToName(page)) == javaName
  {
    var page := javaName[|NavToPrefix|..];
    assert javaName == javaName[..|NavToPrefix|] + page;
    page
  }

  /** The identifier of a navigation method reads back as the page it navigates to. */
  lemma JavaNameRoundTrip(page: string)
    ensures var n := JavaName(NavToName(page));
      |n| >= |NavToPrefix| && n[..|NavToPrefix|] == NavToPrefix && PageOfJavaName(n) == page
  {
    var n := JavaName(NavToName(page));
    assert n[..|NavToPrefix|] == NavToPrefix;
    JavaNameInjective(NavToName(PageOfJavaName(n)), NavToName(page));
  }

  const SetFieldMethod := MethodSpec(SetFieldName,
    [Param("page", TypeRef("java.lang.Object")),
     Param("fieldName", TypeRef("java.lang.String")),
     Param("value", TypeRef("java.lang.Object"))],
    [ReflectiveSet])

  const PopMethod := MethodSpec(PopName, [], [PopOrFail])

  const PopUntilMethod := MethodSpec(PopUntilName,
    [Param("page", TypeRef("java.lang.Class<? extends Navigable>"))],
    [PopUntilOrFail])

  /** Walks the page's parameters in order, adding one method parameter and one
      injection statement per parameter. */
  function ParamsAndInjections(params: seq<Element>): (r: (seq<Param>, seq<Statement>))
    ensures |r.0| == |params| && |r.1| == |params|
    ensures forall i | 0 <= i < |params| ::
      r.0[i] == Param(params[i].simpleName, params[i].asType) && r.1[i] == SetField(params[i].simpleName)
  {
    if params == [] then ([], [])
    else
      var rest := ParamsAndInjections(params[1..]);
      ([Param(params[0].simpleName, params[0].asType)] + rest.0, [SetField(params[0].simpleName)] + rest.1)
  }

  /** The statements injecting `names`, in order. */
  function Injections(names: seq<string>): (body: seq<Statement>)
    ensures |body| == |names|
    ensures forall i | 0 <= i < |names| :: body[i] == SetField(names[i])
  {
    seq(|names|, i requires 0 <= i < |names| => SetField(names[i]))
  }

  /** The generator's walk over the parameters emits exactly the injections of the
      parameters' names, in order. */
  lemma InjectionsAgree(params: seq<Element>)
    ensures ParamsAndInjections(params).1 == Injections(ParamNames(params))
  {
  }

  /** The navigation method for one page: construct, inject each parameter in order,
      push, display. */
  function NavToMethod(pageName: string, data: PageData): (m: MethodSpec)
    ensures m.name == NavToName(pageName)
    ensures |m.params| == |data.params|
    ensures forall i | 0 <= i < |data.params| ::
      m.params[i].name == data.params[i].simpleName && m.params[i].typ == data.params[i].asType
    ensures m.body == [NewPage(data.qualifiedName)] + Injections(ParamNames(data.params)) + [Push, Display]
  {
    var (params, injections) := ParamsAndInjections(data.params);
    InjectionsAgree(data.params);
    MethodSpec(NavToName(pageName), params, [NewPage(data.qualifiedName)] + injections + [Push, Display])
  }

  /** The body of a navigation method in order: the constructor call first, then one
      injection per parameter in parameter order, then the push, and the display last. */
  lemma NavToBodyOrder(pageName: string, data: PageData)
    ensures var body := NavToMethod(pageName, data).body;
      && |body| == |data.params| + 3
      && body[0] == NewPage(data.qualifiedName)
      && (forall i | 0 <= i < |data.params| :: body[1 + i] == SetField(data.params[i].simpleName))
      && body[|body| - 2] == Push
      && body[|body| - 1] == Display
  {
    var injections := Injections(ParamNames(data.params));
    Framed(NewPage(data.qualifiedName), injections, Push, Display);
  }

  /** Where the parts of `[first] + middle + [last1, last2]` sit. */
  lemma Framed<T>(first: T, middle: seq<T>, last1: T, last2: T)
    ensures var s := [first] + middle + [last1, last2];
      && |s| == |middle| + 3
      && s[0] == first
      && (forall i | 0 <= i < |middle| :: s[1 + i] == middle[i])
      && s[|s| - 2] == last1
      && s[|s| - 1] == last2
  {
  }

  /** Each parameter's name is the name its injection statement writes, so the argument
      passed in position i is the value injected into field i. */
  lemma NavToParamsMatchInjections(pageName: string, data: PageData)
    ensures var m := NavToMethod(pageName, data);
      forall i | 0 <= i < |m.params| :: m.body[1 + i] == SetField(m.params[i].name)
  {
    NavToBodyOrder(pageName, data);
  }

  /** The names of the methods generated for a page map: one navigation method per
      page, and the three shared methods. */
  function MethodNames(pages: map<string, PageData>): set<MethodName> {
    (set k <- pages :: NavToName(k)) + {SetFieldName, PopName, PopUntilName}
  }

  /** The method generated under a given name. */
  function MethodFor(pages: map<string, PageData>, n: MethodName): (m: MethodSpec)
    requires n.NavToName? ==> n.page in pages
    ensures m.name == n
  {
    match n
    case NavToName(k) => NavToMethod(k, pages[k])
    case SetFieldName => SetFieldMethod
    case PopName => PopMethod
    case PopUntilName => PopUntilMethod
  }

  /** The generated navigator class, method name to method: one navigation method per
      collected page, plus the three shared methods, each filed under its own name. */
  function GenerateNavigator(pages: map<string, PageData>): (navigator: map<MethodName, MethodSpec>)
    ensures navigator.Keys == (set k <- pages :: NavToName(k)) + {SetFieldName, PopName, PopUntilName}
    ensures forall k <- pages :: NavToName(k) in navigator && navigator[NavToName(k)] == NavToMethod(k, pages[k])
    ensures forall n <- navigator :: n.NavToName? ==> n.page in pages
    ensures forall n <- navigator :: navigator[n].name == n
    ensures SetFieldName in navigator && navigator[SetFieldName] == SetFieldMethod
    ensures PopName in navigator && navigator[PopName] == PopMethod
    ensures PopUntilName in navigator && navigator[PopUntilName] == PopUntilMethod
  {
    map n <- MethodNames(pages) :: MethodFor(pages, n)
  }

  /** Exactly one method per collected page: a navigation method is generated for a page
      name precisely when the page map holds that name. */
  lemma {:induction false} OneNavToPerPage(pages: map<string, PageData>, page: string)
    ensures NavToName(page) in GenerateNavigator(pages) <==> page in pages
  {
  }
}
