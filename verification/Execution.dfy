/**
 Interprets the methods the generator emits, statement by statement, over the stack
 runtime. This ties the two halves together: a generated `navTo<Page>` method, invoked
 with arguments, does exactly what the navigation semantics says, and the generated
 `pop` and `popUntil` are the stack operations.
 */
module Execution {
  import opened Wrappers
  import opened Seqs
  import opened Elements
  import opened PageDescriptors
  import opened Generator
  import opened Runtime
  import Processor

  /** A call a client makes on the generated class. The `Class` argument of `popUntil`
      is not a field value, so it travels separately. */
  datatype Call = CallNavTo(page: string, args: seq<Value>) | CallPop | CallPopUntil(target: PageType)

  /** What running generated code yields: the method's result (normal or thrown), or
      `Stuck` for code the Java compiler would reject, such as a call to a method that was
      not generated, or a statement that uses the page before it is constructed. */
  datatype Outcome = Returned(result: Result) | Stuck

  /** Binds each parameter name to the argument in its position. */
  function Bind(params: seq<Param>, args: seq<Value>): (env: map<string, Value>)
    requires |params| == |args|
    ensures forall p <- params :: p.name in env
    decreases |params|
  {
    if params == [] then map[]
    else
      var n := |params| - 1;
      Bind(params[..n], args[..n])[params[n].name := args[n]]
  }

  /** Binding introduces no name other than the parameters'. */
  lemma {:induction false} BindOnlyParams(params: seq<Param>, args: seq<Value>, name: string)
    requires |params| == |args|
    requires name in Bind(params, args)
    ensures exists i | 0 <= i < |params| :: params[i].name == name
    decreases |params|
  {
    var n := |params| - 1;
    if params[n].name != name {
      BindOnlyParams(params[..n], args[..n], name);
      var i :| 0 <= i < n && params[..n][i].name == name;
      assert params[i] == params[..n][i];
    }
  }

  /** With distinct parameter names, each name is bound to the argument in its own
      position. */
  lemma {:induction false} BindDistinct(params: seq<Param>, args: seq<Value>)
    requires |params| == |args|
    requires forall i, j | 0 <= i < j < |params| :: params[i].name != params[j].name
    ensures forall i | 0 <= i < |params| :: params[i].name in Bind(params, args) && Bind(params, args)[params[i].name] == args[i]
    decreases |params|
  {
    if params != [] {
      var n := |params| - 1;
      BindDistinct(params[..n], args[..n]);
      forall i | 0 <= i < |params|
        ensures params[i].name in Bind(params, args) && Bind(params, args)[params[i].name] == args[i]
      {
        if i < n {
          assert params[..n][i] == params[i];
          assert args[..n][i] == args[i];
        }
      }
    }
  }

  /**
   Runs a method body. `env` holds the parameters; `page` is the method's local page
   variable, unset until the constructor call; `target` is the `Class` argument of
   `popUntil`, when there is one. Names resolve as Java resolves them: a local `page`
   declared next to a parameter of that name does not compile, and a parameter named
   `stack` hides the navigator's stack, so the push lands in the caller's collection.
   No body removes an earlier display from the trace.
   */
  function ExecBody(body: seq<Statement>, env: map<string, Value>, target: Option<PageType>,
                    classes: map<string, Page>, page: Option<Page>, nav: Nav): (out: Outcome)
    ensures out.Returned? ==> nav.shown <= out.result.state.shown
    decreases |body|
  {
    if body == [] then Returned(Ok(nav))
    else
      var rest := body[1..];
      match body[0]
      case NewPage(c) =>
        if PageLocal in env || c !in classes then Stuck
        else ExecBody(rest, env, target, classes, Some(classes[c]), nav)
      case SetField(f) =>
        if page.None? || f !in env then Stuck
        else (
          match Runtime.SetField(page.value, f, env[f])
          case Missing(g) => Returned(Err(nav, FieldInjection(g)))
          case Injected(q) => ExecBody(rest, env, target, classes, Some(q), nav))
      case Push =>
        if page.None? then Stuck
        else if StackField in env && env[StackField] == Zero then Returned(Err(nav, NullPointer))
        else if StackField in env then ExecBody(rest, env, target, classes, page, nav)
        else ExecBody(rest, env, target, classes, page, nav.(stack := [page.value] + nav.stack))
      case Display =>
        if page.None? then Stuck
        else ExecBody(rest, env, target, classes, page, nav.(shown := nav.shown + [page.value]))
      case ReflectiveSet =>
        Stuck
      case PopOrFail =>
        (match Runtime.Pop(nav)
         case Err(after, failure) => Returned(Err(after, failure))
         case Ok(after) => ExecBody(rest, env, target, classes, page, after))
      case PopUntilOrFail =>
        if target.None? then Stuck
        else (
          match Runtime.PopUntil(nav, target.value)
          case Err(after, failure) => Returned(Err(after, failure))
          case Ok(after) => ExecBody(rest, env, target, classes, page, after))
  }

  /** Invokes a public method of a generated class. `classes` gives, for each qualified
      class name, the instance its no-argument constructor produces. No call removes an
      earlier display from the trace. */
  function Invoke(navigator: map<MethodName, MethodSpec>, call: Call, classes: map<string, Page>, s: Nav): (out: Outcome)
    ensures out.Returned? ==> s.shown <= out.result.state.shown
  {
    match call
    case CallNavTo(page, args) =>
      var name := NavToName(page);
      if name in navigator && |args| == |navigator[name].params| then
        var m := navigator[name];
        ExecBody(m.body, Bind(m.params, args), None, classes, None, s)
      else Stuck
    case CallPop =>
      if PopName in navigator then ExecBody(navigator[PopName].body, map[], None, classes, None, s) else Stuck
    case CallPopUntil(t) =>
      if PopUntilName in navigator then ExecBody(navigator[PopUntilName].body, map[], Some(t), classes, None, s) else Stuck
  }

  /** Running the injection statements for `names` is injecting the arguments in order:
      the first missing field throws with the state untouched, and otherwise execution
      continues with the injected page. */
  lemma {:induction false} InjectionsRun(names: seq<string>, args: seq<Value>, rest: seq<Statement>,
                                         env: map<string, Value>, target: Option<PageType>,
                                         classes: map<string, Page>, p: Page, nav: Nav)
    requires |names| == |args|
    requires forall i | 0 <= i < |names| :: names[i] in env && env[names[i]] == args[i]
    ensures ExecBody(Injections(names) + rest, env, target, classes, Some(p), nav) ==
      match InjectAll(p, names, args)
      case Missing(f) => Returned(Err(nav, FieldInjection(f)))
      case Injected(q) => ExecBody(rest, env, target, classes, Some(q), nav)
    decreases |names|
  {
    var body := Injections(names) + rest;
    if names != [] {
      assert body[0] == SetField(names[0]);
      assert body[1..] == Injections(names[1..]) + rest;
      match Runtime.SetField(p, names[0], args[0])
      case Missing(g) =>
      case Injected(q) =>
        InjectionsRun(names[1..], args[1..], rest, env, target, classes, q, nav);
    } else {
      assert body == rest;
    }
  }

  /** Pushing and then displaying the page appends it to the trace and puts it on top of
      the navigator's stack, unless a parameter named `stack` takes the push. A null
      `stack` argument throws at the push, before anything is displayed. */
  lemma PushThenDisplay(env: map<string, Value>, target: Option<PageType>, classes: map<string, Page>, q: Page, s: Nav)
    ensures ExecBody([Push, Display], env, target, classes, Some(q), s) ==
      if StackField in env && env[StackField] == Zero then Returned(Err(s, NullPointer))
      else Returned(Ok(Nav(if StackField in env then s.stack else [q] + s.stack, s.shown + [q])))
  {
    if !(StackField in env && env[StackField] == Zero) {
      var pushed := if StackField in env then s else s.(stack := [q] + s.stack);
      assert [Push, Display][1..] == [Display];
      assert ExecBody([Push, Display], env, target, classes, Some(q), s) == ExecBody([Display], env, target, classes, Some(q), pushed);
      assert [Display][1..] == [];
    }
  }

  /** The argument passed for the parameter called `n`: the one at the first position
      holding that name, or `Zero` when no parameter has it. */
  function ArgumentNamed(names: seq<string>, args: seq<Value>, n: string): (v: Value)
    requires |names| == |args|
    ensures n in names ==> exists i | 0 <= i < |names| :: names[i] == n && v == args[i]
    ensures n !in names ==> v == Zero
    decreases |names|
  {
    if names == [] then Zero
    else if names[0] == n then args[0]
    else
      var v := ArgumentNamed(names[1..], args[1..], n);
      assert n in names ==> n in names[1..];
      assert forall j | 0 <= j < |names| - 1 :: names[1..][j] == names[j + 1] && args[1..][j] == args[j + 1];
      v
  }

  /** What a navigation method does when one of its parameters is named `stack`, given
      the argument passed for it: the same injections as `Runtime.NavTo`, then the push
      goes to the caller's collection. A null collection throws there, with nothing
      displayed; otherwise the page is displayed and the navigator's stack is left as it
      was. */
  function NavToIntoArgument(s: Nav, created: Page, names: seq<string>, args: seq<Value>, stackArg: Value): (r: Result)
    requires |names| == |args|
    ensures NavTo(s, created, names, args).Err? ==> r == NavTo(s, created, names, args)
    ensures NavTo(s, created, names, args).Ok? && stackArg == Zero ==> r == Err(s, NullPointer)
    ensures r.Ok? <==> NavTo(s, created, names, args).Ok? && stackArg != Zero
    ensures r.Ok? ==> r.state.stack == s.stack && r.state.shown == NavTo(s, created, names, args).state.shown
  {
    match NavTo(s, created, names, args)
    case Err(t, f) => Err(t, f)
    case Ok(t) => if stackArg == Zero then Err(s, NullPointer) else Ok(t.(stack := s.stack))
  }

  /** A navigation method body, run with each parameter bound to its argument, is the
      navigation semantics on the instance the constructor produces; when a parameter is
      named `stack`, the navigator's stack is not pushed. */
  lemma {:induction false} NavToBodyRuns(k: string, data: PageData, env: map<string, Value>, args: seq<Value>,
                                         classes: map<string, Page>, s: Nav)
    requires data.qualifiedName in classes && PageLocal !in env
    requires |args| == |data.params|
    requires forall i | 0 <= i < |args| :: data.params[i].simpleName in env && env[data.params[i].simpleName] == args[i]
    ensures var created := classes[data.qualifiedName];
      var names := ParamNames(data.params);
      ExecBody(NavToMethod(k, data).body, env, None, classes, None, s) ==
        Returned(if StackField in env then NavToIntoArgument(s, created, names, args, env[StackField]) else NavTo(s, created, names, args))
  {
    var body := NavToMethod(k, data).body;
    var names := ParamNames(data.params);
    var created := classes[data.qualifiedName];
    var tail := [Push, Display];
    assert body[0] == NewPage(data.qualifiedName);
    assert body[1..] == Injections(names) + tail;
    assert ExecBody(body, env, None, classes, None, s) == ExecBody(body[1..], env, None, classes, Some(created), s);
    InjectionsRun(names, args, tail, env, None, classes, created, s);
    match InjectAll(created, names, args)
    case Missing(f) =>
    case Injected(q) =>
      PushThenDisplay(env, None, classes, q, s);
  }

  /** A class holding a page's navigation method, invoked with one argument per
      parameter, behaves as the navigation semantics on the instance the page's
      constructor produces, except that a parameter named `stack` takes the push. */
  lemma NavToMethodRuns(navigator: map<MethodName, MethodSpec>, k: string, data: PageData,
                        classes: map<string, Page>, args: seq<Value>, s: Nav)
    requires NavToName(k) in navigator && navigator[NavToName(k)] == NavToMethod(k, data)
    requires data.qualifiedName in classes
    requires |args| == |data.params|
    requires Distinct(ParamNames(data.params)) && PageLocal !in ParamNames(data.params)
    ensures var created := classes[data.qualifiedName];
      var names := ParamNames(data.params);
      Invoke(navigator, CallNavTo(k, args), classes, s) ==
        Returned(if StackField in names then NavToIntoArgument(s, created, names, args, ArgumentNamed(names, args, StackField))
                 else NavTo(s, created, names, args))
  {
    var m := NavToMethod(k, data);
    var env := Bind(m.params, args);
    BindNavToParams(k, data, args);
    BoundNames(m.params, data.params, args, PageLocal);
    BoundNames(m.params, data.params, args, StackField);
    if StackField in ParamNames(data.params) {
      BoundArgument(m.params, data.params, args, StackField);
    }
    InvokeNavTo(navigator, k, args, classes, s);
    NavToBodyRuns(k, data, env, args, classes, s);
  }

  /** A navigation method declaring a parameter named `page` clashes with its own local
      `page` variable, so the Java compiler rejects it. */
  lemma PageParamRejected(navigator: map<MethodName, MethodSpec>, k: string, data: PageData,
                          classes: map<string, Page>, args: seq<Value>, s: Nav)
    requires NavToName(k) in navigator && navigator[NavToName(k)] == NavToMethod(k, data)
    requires |args| == |data.params|
    requires PageLocal in ParamNames(data.params)
    ensures Invoke(navigator, CallNavTo(k, args), classes, s) == Stuck
  {
    var m := NavToMethod(k, data);
    BoundNames(m.params, data.params, args, PageLocal);
    InvokeNavTo(navigator, k, args, classes, s);
    assert m.body[0] == NewPage(data.qualifiedName);
  }

  /** Parameters named after fields, position by position, bind exactly the fields'
      names. */
  lemma BoundNames(params: seq<Param>, fields: seq<Element>, args: seq<Value>, name: string)
    requires |params| == |fields| == |args|
    requires forall i | 0 <= i < |params| :: params[i].name == fields[i].simpleName
    ensures name in Bind(params, args) <==> name in ParamNames(fields)
  {
    var names := ParamNames(fields);
    if name in Bind(params, args) {
      BindOnlyParams(params, args, name);
      var i :| 0 <= i < |params| && params[i].name == name;
      assert names[i] == name;
    }
    if name in names {
      var i :| 0 <= i < |names| && names[i] == name;
      assert params[i] in params;
    }
  }

  /** Parameters named after distinct fields bind a field's name to the argument passed
      for it. */
  lemma {:induction false} BoundArgument(params: seq<Param>, fields: seq<Element>, args: seq<Value>, name: string)
    requires |params| == |fields| == |args|
    requires forall i | 0 <= i < |params| :: params[i].name == fields[i].simpleName
    requires Distinct(ParamNames(fields))
    requires name in ParamNames(fields)
    ensures name in Bind(params, args) && Bind(params, args)[name] == ArgumentNamed(ParamNames(fields), args, name)
  {
    var names := ParamNames(fields);
    BindFieldNames(params, fields, args);
    var i :| 0 <= i < |names| && names[i] == name && ArgumentNamed(names, args, name) == args[i];
    assert fields[i].simpleName == name;
  }

  /** Binding a navigation method's distinct parameters makes each field name of the page
      map to the argument in its position. */
  lemma BindNavToParams(k: string, data: PageData, args: seq<Value>)
    requires |args| == |data.params|
    requires Distinct(ParamNames(data.params))
    ensures var env := Bind(NavToMethod(k, data).params, args);
      forall i | 0 <= i < |args| :: data.params[i].simpleName in env && env[data.params[i].simpleName] == args[i]
  {
    BindFieldNames(NavToMethod(k, data).params, data.params, args);
  }

  /** Parameters named after distinct fields, position by position, bind each field name
      to the argument in its position. */
  lemma BindFieldNames(params: seq<Param>, fields: seq<Element>, args: seq<Value>)
    requires |params| == |fields| == |args|
    requires forall i | 0 <= i < |params| :: params[i].name == fields[i].simpleName
    requires Distinct(ParamNames(fields))
    ensures var env := Bind(params, args);
      forall i | 0 <= i < |args| :: fields[i].simpleName in env && env[fields[i].simpleName] == args[i]
  {
    var names := ParamNames(fields);
    assert forall i, j | 0 <= i < j < |params| :: params[i].name != params[j].name by {
      forall i, j | 0 <= i < j < |params| ensures params[i].name != params[j].name {
        assert names[i] != names[j];
      }
    }
    BindDistinct(params, args);
  }

  /** The generated navigation method for a collected page, invoked with one argument per
      parameter, behaves as the navigation semantics on the instance the page's
      constructor produces. */
  lemma GeneratedNavToRuns(pages: map<string, PageData>, k: string, classes: map<string, Page>,
                           args: seq<Value>, s: Nav)
    requires k in pages && pages[k].qualifiedName in classes
    requires |args| == |pages[k].params|
    requires Distinct(ParamNames(pages[k].params)) && PageLocal !in ParamNames(pages[k].params)
    ensures var created := classes[pages[k].qualifiedName];
      var names := ParamNames(pages[k].params);
      Invoke(GenerateNavigator(pages), CallNavTo(k, args), classes, s) ==
        Returned(if StackField in names then NavToIntoArgument(s, created, names, args, ArgumentNamed(names, args, StackField))
                 else NavTo(s, created, names, args))
  {
    NavToMethodRuns(GenerateNavigator(pages), k, pages[k], classes, args, s);
  }

  /** Invoking a navigation method runs its body with the parameters bound. */
  lemma InvokeNavTo(navigator: map<MethodName, MethodSpec>, k: string, args: seq<Value>, classes: map<string, Page>, s: Nav)
    requires NavToName(k) in navigator && |args| == |navigator[NavToName(k)].params|
    ensures var m := navigator[NavToName(k)];
      Invoke(navigator, CallNavTo(k, args), classes, s) == ExecBody(m.body, Bind(m.params, args), None, classes, None, s)
  {
  }

  /** Only collected pages have a navigation method; asking for any other is rejected. */
  lemma UncollectedPageHasNoNavTo(pages: map<string, PageData>, k: string, classes: map<string, Page>,
                                  args: seq<Value>, s: Nav)
    requires k !in pages
    ensures Invoke(GenerateNavigator(pages), CallNavTo(k, args), classes, s) == Stuck
  {
  }

  /** The generated `pop()` is the stack operation `Pop`. */
  lemma GeneratedPopRuns(pages: map<string, PageData>, classes: map<string, Page>, s: Nav)
    ensures Invoke(GenerateNavigator(pages), CallPop, classes, s) == Returned(Runtime.Pop(s))
  {
    assert PopMethod.body[1..] == [];
  }

  /** The generated `popUntil(page)` is the stack operation `PopUntil`. */
  lemma GeneratedPopUntilRuns(pages: map<string, PageData>, classes: map<string, Page>, t: PageType, s: Nav)
    ensures Invoke(GenerateNavigator(pages), CallPopUntil(t), classes, s) == Returned(Runtime.PopUntil(s, t))
  {
    assert PopUntilMethod.body[1..] == [];
  }

  /** The instance a class's constructor produces has every field the class declares. */
  predicate ConstructsDeclaredFields(e: Element, classes: map<string, Page>) {
    e.qualifiedName in classes && DeclaredFields(e) == classes[e.qualifiedName].fields.Keys
  }

  /** Every parameter collected from a class is one of the fields the class declares. */
  lemma CollectedParamsDeclared(e: Element)
    ensures forall n <- ParamNames(Processor.CollectParams(e.enclosed)) :: n in DeclaredFields(e)
  {
    var params := Processor.CollectParams(e.enclosed);
    var names := ParamNames(params);
    forall n <- names
      ensures n in DeclaredFields(e)
    {
      var i :| 0 <= i < |names| && names[i] == n;
      assert params[i] in params;
    }
  }

  /** No `@Param` field of `e` is named like the local page variable or the navigator's
      stack, the two identifiers a navigation method's parameters could capture. */
  predicate NoCapturedParams(e: Element) {
    forall f <- e.enclosed :: f.kind == Field && ParamMarker in f.annotations ==>
      f.simpleName != PageLocal && f.simpleName != StackField
  }

  /** A class with no captured `@Param` name yields navigation parameters free of both
      identifiers. */
  lemma CollectedNamesFree(e: Element)
    requires NoCapturedParams(e)
    ensures var names := ParamNames(Processor.CollectParams(e.enclosed));
      PageLocal !in names && StackField !in names
  {
    var params := Processor.CollectParams(e.enclosed);
    var names := ParamNames(params);
    forall i | 0 <= i < |names|
      ensures names[i] != PageLocal && names[i] != StackField
    {
      assert params[i] in params;
    }
  }

  /** `out` is a successful navigation from `s`: one page was pushed and displayed, and
      its fields `names` hold `args`, position by position. */
  predicate NavigatedWith(out: Outcome, s: Nav, names: seq<string>, args: seq<Value>)
    requires |names| == |args|
  {
    && out.Returned? && out.result.Ok?
    && |out.result.state.stack| == |s.stack| + 1
    && out.result.state.stack[1..] == s.stack
    && out.result.state.shown == s.shown + [out.result.state.stack[0]]
    && forall i | 0 <= i < |args| ::
         names[i] in out.result.state.stack[0].fields && out.result.state.stack[0].fields[names[i]] == args[i]
  }

  /** A navigation whose fields all exist is a successful navigation with the arguments
      in place. */
  lemma NavToNavigated(s: Nav, created: Page, names: seq<string>, args: seq<Value>)
    requires |names| == |args| && Distinct(names)
    requires forall n <- names :: n in created.fields
    ensures NavigatedWith(Returned(NavTo(s, created, names, args)), s, names, args)
  {
    NavToInjectsArguments(s, created, names, args);
  }

  /** The generated navigation method for a page collected from a well-formed class whose
      constructor yields its declared fields succeeds with the arguments in place. */
  lemma NavigationSucceedsFor(pages: map<string, PageData>, k: string, e: Element, classes: map<string, Page>,
                              args: seq<Value>, s: Nav)
    requires k in pages && pages[k].qualifiedName == e.qualifiedName && pages[k].params == Processor.CollectParams(e.enclosed)
    requires WellFormedType(e) && ConstructsDeclaredFields(e, classes) && NoCapturedParams(e)
    requires |args| == |pages[k].params|
    ensures NavigatedWith(Invoke(GenerateNavigator(pages), CallNavTo(k, args), classes, s), s, ParamNames(pages[k].params), args)
  {
    var names := ParamNames(pages[k].params);
    Processor.CollectParamsDistinct(e.enclosed);
    CollectedParamsDeclared(e);
    CollectedNamesFree(e);
    var created := classes[e.qualifiedName];
    assert forall n <- names :: n in created.fields;
    GeneratedNavToRuns(pages, k, classes, args, s);
    NavToNavigated(s, created, names, args);
  }

  /** For every page collected from a well-formed class whose constructor yields its
      declared fields and whose `@Param` fields capture no identifier, the generated
      navigation method never throws: the page is pushed and displayed, and its `@Param`
      fields hold the arguments in parameter order. `annotated` is the round's annotated
      elements in any iteration order, `Elements.AnnotatedWith` being one of them. */
  lemma CollectedNavigationSucceeds(annotated: seq<Element>, k: string, classes: map<string, Page>,
                                    args: seq<Value>, s: Nav)
    requires forall e <- annotated | Processor.IsPageClass(e) ::
      WellFormedType(e) && ConstructsDeclaredFields(e, classes) && NoCapturedParams(e)
    requires k in Processor.BuildPageMap(annotated)
    requires |args| == |Processor.BuildPageMap(annotated)[k].params|
    ensures var pages := Processor.BuildPageMap(annotated);
      NavigatedWith(Invoke(GenerateNavigator(pages), CallNavTo(k, args), classes, s), s, ParamNames(pages[k].params), args)
  {
    var pages := Processor.BuildPageMap(annotated);
    Processor.PageMapEntries(annotated);
    var e :| e in annotated && Processor.IsPageClass(e) && e.simpleName == k
      && pages[k].qualifiedName == e.qualifiedName && pages[k].params == Processor.CollectParams(e.enclosed);
    NavigationSucceedsFor(pages, k, e, classes, args, s);
  }

  /** A page whose `@Param` field is named `stack` breaks the navigation invariant: given
      a non-null collection for that parameter, its navigation method succeeds and displays
      the new page, but the navigator's stack keeps its old top, so a differently classed
      old top is no longer the page displayed last. */
  lemma StackParamBreaksTopShown(pages: map<string, PageData>, k: string, classes: map<string, Page>,
                                 args: seq<Value>, s: Nav)
    requires k in pages && pages[k].qualifiedName in classes
    requires |args| == |pages[k].params|
    requires Distinct(ParamNames(pages[k].params)) && PageLocal !in ParamNames(pages[k].params)
    requires StackField in ParamNames(pages[k].params)
    requires ArgumentNamed(ParamNames(pages[k].params), args, StackField) != Zero
    requires forall n <- ParamNames(pages[k].params) :: n in classes[pages[k].qualifiedName].fields
    ensures var out := Invoke(GenerateNavigator(pages), CallNavTo(k, args), classes, s);
      && out.Returned? && out.result.Ok?
      && out.result.state.stack == s.stack
      && |out.result.state.shown| == |s.shown| + 1
      && out.result.state.shown[|s.shown|].cls == classes[pages[k].qualifiedName].cls
      && (s.stack != [] && s.stack[0].cls != classes[pages[k].qualifiedName].cls ==> !TopShown(out.result.state))
  {
    GeneratedNavToRuns(pages, k, classes, args, s);
  }

  /** The same page called with null for its `stack` parameter injects its fields, then
      throws `NullPointerException` at the push: nothing is pushed or displayed. */
  lemma {:induction false} NullStackArgumentThrows(pages: map<string, PageData>, k: string, classes: map<string, Page>,
                                args: seq<Value>, s: Nav)
    requires k in pages && pages[k].qualifiedName in classes
    requires |args| == |pages[k].params|
    requires Distinct(ParamNames(pages[k].params)) && PageLocal !in ParamNames(pages[k].params)
    requires StackField in ParamNames(pages[k].params)
    requires ArgumentNamed(ParamNames(pages[k].params), args, StackField) == Zero
    requires forall n <- ParamNames(pages[k].params) :: n in classes[pages[k].qualifiedName].fields
    ensures Invoke(GenerateNavigator(pages), CallNavTo(k, args), classes, s) == Returned(Err(s, NullPointer))
  {
    GeneratedNavToRuns(pages, k, classes, args, s);
  }
}
