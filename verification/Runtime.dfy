/**
 The run-time behaviour the generated `Navigator` class has: a process-wide stack of
 page instances (top at index 0, where `ArrayDeque.push`, `pop` and `peek` work),
 reflective field injection, and the three stack operations. Every `display()` call is
 recorded, in order, in an append-only trace; an operation's outcome is either `Ok` or
 the exception it throws, and both carry the state left behind, because `pop` on a
 single page mutates before it throws.
 */
module Runtime {
  import opened Seqs

  /** A field value, opaque to the navigator. `Zero` is the default a field starts with:
      null for a reference, zero or false for a primitive. */
  datatype Value = Zero | Str(text: string) | Obj(id: nat)

  /** A page instance: its runtime class and the fields its class declares, by name. */
  datatype Page = Page(cls: string, fields: map<string, Value>)

  /** The `Class` argument of `popUntil`: its simple name and its `isInstance` test. */
  datatype PageType = PageType(simpleName: string, isInstance: Page -> bool)

  /** The navigation stack, top first, and every page displayed so far, oldest first. */
  datatype Nav = Nav(stack: seq<Page>, shown: seq<Page>)

  /** The state at process start. */
  const Initial := Nav([], [])

  /** The exceptions the generated methods throw. */
  datatype Failure =
    | FieldInjection(field: string)   // setField could not write the field
    | EmptyHistory                    // pop removed the last page
    | NoPages                         // pop found the stack already empty
    | NoMatchingPage(typeName: string) // popUntil found no page of the type
    | NullPointer                     // a method was called on a null reference

  /** The message each exception carries. */
  function Message(f: Failure): string {
    match f
    case FieldInjection(field) => "java.lang.NoSuchFieldException: " + field
    case EmptyHistory => "page stack couldn't be empty."
    case NoPages => "No pages to pop."
    case NoMatchingPage(typeName) => "No page of type " + typeName + " found."
    case NullPointer => "java.lang.NullPointerException"
  }

  /** Each message names its failure: two failures carry the same message only when
      they are the same failure. */
  lemma MessageIdentifiesFailure(f: Failure, g: Failure)
    ensures Message(f) == Message(g) <==> f == g
  {
    var m, n := Message(f), Message(g);
    if m == n {
      match f
      case FieldInjection(a) =>
        assert m[0] == 'j' && m[11] == 'o';
        var b := g.field;
        assert a == m[32..] && b == n[32..];
      case EmptyHistory =>
        assert m[0] == 'p';
      case NoPages =>
        assert m[0] == 'N' && m[7] == 's';
      case NoMatchingPage(a) =>
        assert m[0] == 'N' && m[7] == ' ';
        var b := g.typeName;
        assert |a| == |b|;
        assert a == m[16..16 + |a|] && b == n[16..16 + |b|];
      case NullPointer =>
        assert m[0] == 'j' && m[11] == 'u';
    }
  }

  datatype Result = Ok(state: Nav) | Err(state: Nav, failure: Failure)

  /** The outcome of injecting into a page: the updated page, or the field that is not there. */
  datatype Injection = Injected(page: Page) | Missing(field: string)

  /** The generated `setField` helper: write `v` into the field called `name`, failing
      when the page's class declares no such field. */
  function SetField(p: Page, name: string, v: Value): (r: Injection)
    ensures r.Injected? <==> name in p.fields
    ensures r.Missing? ==> r.field == name
    ensures r.Injected? ==> r.page.cls == p.cls && r.page.fields.Keys == p.fields.Keys
    ensures r.Injected? ==> r.page.fields[name] == v
    ensures r.Injected? ==> forall f <- p.fields :: f != name ==> r.page.fields[f] == p.fields[f]
  {
    if name in p.fields then Injected(p.(fields := p.fields[name := v])) else Missing(name)
  }

  /** The injection statements of a navigation method, run in order: the first field
      that cannot be written aborts the rest. */
  function InjectAll(p: Page, names: seq<string>, args: seq<Value>): (r: Injection)
    requires |names| == |args|
    ensures r.Injected? <==> forall n <- names :: n in p.fields
    ensures r.Missing? ==> r.field !in p.fields && r.field in names
    ensures r.Injected? ==> r.page.cls == p.cls && r.page.fields.Keys == p.fields.Keys
    ensures r.Injected? ==> forall f <- p.fields :: f !in names ==> r.page.fields[f] == p.fields[f]
    decreases |names|
  {
    if names == [] then Injected(p)
    else
      match SetField(p, names[0], args[0])
      case Missing(f) => Missing(f)
      case Injected(q) =>
        assert forall n <- names[1..] :: n in names;
        InjectAll(q, names[1..], args[1..])
  }

  /** Injection aborts at the first missing field: every field named before it was there. */
  lemma {:induction false} InjectAllStopsAtFirstMissing(p: Page, names: seq<string>, args: seq<Value>)
    requires |names| == |args|
    requires InjectAll(p, names, args).Missing?
    ensures exists i | 0 <= i < |names| ::
      names[i] == InjectAll(p, names, args).field && forall j | 0 <= j < i :: names[j] in p.fields
    decreases |names|
  {
    var f := InjectAll(p, names, args).field;
    if names[0] in p.fields {
      var q := SetField(p, names[0], args[0]).page;
      InjectAllStopsAtFirstMissing(q, names[1..], args[1..]);
      var i :| 0 <= i < |names[1..]| && names[1..][i] == f && forall j | 0 <= j < i :: names[1..][j] in q.fields;
      assert names[i + 1] == f;
      assert forall j | 0 <= j < i + 1 :: names[j] in p.fields by {
        forall j | 0 <= j < i + 1 ensures names[j] in p.fields {
          if j > 0 { assert names[j] == names[1..][j - 1]; }
        }
      }
    } else {
      assert names[0] == f;
    }
  }

  /** With distinct field names, each named field ends up holding the argument in the
      same position. */
  lemma {:induction false} InjectAllWritesArguments(p: Page, names: seq<string>, args: seq<Value>)
    requires |names| == |args| && Distinct(names)
    requires InjectAll(p, names, args).Injected?
    ensures forall i | 0 <= i < |names| :: InjectAll(p, names, args).page.fields[names[i]] == args[i]
    decreases |names|
  {
    if names != [] {
      var q := SetField(p, names[0], args[0]).page;
      var rest := names[1..];
      assert Distinct(rest) by {
        forall i, j | 0 <= i < j < |rest| ensures rest[i] != rest[j] {
          assert rest[i] == names[i + 1] && rest[j] == names[j + 1];
        }
      }
      InjectAllWritesArguments(q, rest, args[1..]);
      var r := InjectAll(p, names, args).page;
      assert r == InjectAll(q, rest, args[1..]).page;
      assert names[0] !in rest by {
        forall j | 0 <= j < |rest| ensures rest[j] != names[0] {
          assert rest[j] == names[j + 1];
        }
      }
      forall i | 0 <= i < |names|
        ensures r.fields[names[i]] == args[i]
      {
        if i > 0 {
          assert names[i] == rest[i - 1];
        }
      }
    }
  }

  /** A generated `navTo<Page>` method run on a freshly constructed page: inject the
      arguments, then push the page, then display it. An injection failure throws before
      the push, so the state is left exactly as it was. */
  function NavTo(s: Nav, created: Page, names: seq<string>, args: seq<Value>): (r: Result)
    requires |names| == |args|
    ensures r.Err? <==> exists n <- names :: n !in created.fields
    ensures r.Err? ==> r.state == s && r.failure.FieldInjection? && r.failure.field !in created.fields
    ensures r.Ok? ==> |r.state.stack| == |s.stack| + 1 && r.state.stack[1..] == s.stack
    ensures r.Ok? ==> r.state.shown == s.shown + [r.state.stack[0]]
    ensures r.Ok? ==> r.state.stack[0].cls == created.cls && r.state.stack[0].fields.Keys == created.fields.Keys
    ensures r.Ok? ==> forall f <- created.fields :: f !in names ==> r.state.stack[0].fields[f] == created.fields[f]
  {
    match InjectAll(created, names, args)
    case Missing(f) => Err(s, FieldInjection(f))
    case Injected(page) =>
      var pushed := s.(stack := [page] + s.stack);
      Ok(pushed.(shown := pushed.shown + [page]))
  }

  /** After a successful navigation the new top holds exactly the arguments passed, in
      parameter order (the field names of one class are distinct). */
  lemma NavToInjectsArguments(s: Nav, created: Page, names: seq<string>, args: seq<Value>)
    requires |names| == |args| && Distinct(names)
    requires NavTo(s, created, names, args).Ok?
    ensures var top := NavTo(s, created, names, args).state.stack[0];
      forall i | 0 <= i < |names| :: top.fields[names[i]] == args[i]
  {
    InjectAllWritesArguments(created, names, args);
  }

  /** The generated `pop()`: on an empty stack it throws "No pages to pop." and changes
      nothing; otherwise it removes the top, then displays the new top, or throws "page
      stack couldn't be empty." with the stack already emptied. */
  function Pop(s: Nav): (r: Result)
    ensures r.Ok? <==> |s.stack| >= 2
    ensures r.Ok? ==> r.state.stack == s.stack[1..] && r.state.shown == s.shown + [s.stack[1]]
    ensures r.Err? ==> r.state.shown == s.shown
    ensures |s.stack| == 0 ==> r.Err? && r.failure == NoPages && r.state == s
    ensures |s.stack| == 1 ==> r.Err? && r.failure == EmptyHistory && r.state.stack == []
  {
    if s.stack != [] then
      var popped := s.(stack := s.stack[1..]);
      if popped.stack != [] then Ok(popped.(shown := popped.shown + [popped.stack[0]]))
      else Err(popped, EmptyHistory)
    else Err(s, NoPages)
  }

  /** How many pages `popUntil`'s loop removes: pages come off the top while the top is
      not an instance of `t`. */
  function PopCount(stack: seq<Page>, t: PageType): (n: nat)
    ensures n <= |stack|
    ensures forall i | 0 <= i < n :: !t.isInstance(stack[i])
    ensures n < |stack| ==> t.isInstance(stack[n])
    decreases |stack|
  {
    if stack == [] || t.isInstance(stack[0]) then 0
    else 1 + PopCount(stack[1..], t)
  }

  /** A top that is not an instance of the type is popped and the walk goes on below it. */
  lemma PopCountSkips(p: Page, below: seq<Page>, t: PageType)
    requires !t.isInstance(p)
    ensures PopCount([p] + below, t) == 1 + PopCount(below, t)
  {
    assert ([p] + below)[1..] == below;
  }

  /** A top that is an instance of the type stops the walk with nothing popped. */
  lemma PopCountStops(p: Page, below: seq<Page>, t: PageType)
    requires t.isInstance(p)
    ensures PopCount([p] + below, t) == 0
  {
  }

  /** Some page on the stack is an instance of `t`. */
  predicate HasInstance(stack: seq<Page>, t: PageType) {
    exists i | 0 <= i < |stack| :: t.isInstance(stack[i])
  }

  /** The generated `popUntil(page)`: pop until the top is an instance of the type, then
      display it; if the stack runs out, throw "No page of type ... found." with the stack
      left empty. */
  function PopUntil(s: Nav, t: PageType): (r: Result)
    ensures |r.state.stack| <= |s.stack| && r.state.stack == s.stack[|s.stack| - |r.state.stack|..]
    ensures forall i | 0 <= i < |s.stack| - |r.state.stack| :: !t.isInstance(s.stack[i])
    ensures r.Ok? <==> HasInstance(s.stack, t)
    ensures r.Ok? ==> t.isInstance(r.state.stack[0]) && r.state.shown == s.shown + [r.state.stack[0]]
    ensures r.Err? ==> r.state.stack == [] && r.state.shown == s.shown && r.failure == NoMatchingPage(t.simpleName)
  {
    var rest := s.stack[PopCount(s.stack, t)..];
    if rest == [] then
      Err(s.(stack := rest), NoMatchingPage(t.simpleName))
    else
      Ok(Nav(rest, s.shown + [rest[0]]))
  }

  /** If the top is already an instance of the type, `popUntil` removes nothing and
      redisplays it. */
  lemma PopUntilKeepsMatchingTop(s: Nav, t: PageType)
    requires s.stack != [] && t.isInstance(s.stack[0])
    ensures PopUntil(s, t) == Ok(Nav(s.stack, s.shown + [s.stack[0]]))
  {
  }

  /** Running `popUntil` twice with the same type leaves the stack where the first run did. */
  lemma PopUntilIdempotent(s: Nav, t: PageType)
    ensures PopUntil(PopUntil(s, t).state, t).state.stack == PopUntil(s, t).state.stack
  {
    var once := PopUntil(s, t);
    if once.Ok? {
      PopUntilKeepsMatchingTop(once.state, t);
    }
  }

  /** Navigating and then popping returns to the previous stack and redisplays its top;
      from an empty stack the pop instead throws with the stack emptied again. */
  lemma PopUndoesNavTo(s: Nav, created: Page, names: seq<string>, args: seq<Value>)
    requires |names| == |args|
    requires NavTo(s, created, names, args).Ok?
    ensures var r := Pop(NavTo(s, created, names, args).state);
      && r.state.stack == s.stack
      && (s.stack != [] ==> r.Ok? && r.state.shown[|r.state.shown| - 1] == s.stack[0])
      && (s.stack == [] ==> r.Err? && r.failure == EmptyHistory)
  {
  }

  /** The top of the stack, if any, is the page displayed last. */
  predicate TopShown(s: Nav) {
    s.stack != [] ==> s.shown != [] && s.shown[|s.shown| - 1] == s.stack[0]
  }

  /** A call a caller can make on the generated class, with the page `new` produced for a
      navigation. */
  datatype Command =
    | Navigate(created: Page, names: seq<string>, args: seq<Value>)
    | PopCommand
    | PopUntilCommand(target: PageType)

  predicate WellFormedCommand(c: Command) {
    c.Navigate? ==> |c.names| == |c.args|
  }

  /** One call; a thrown exception leaves the state the call left behind. No call
      removes an earlier display from the trace. */
  function Step(s: Nav, c: Command): (r: Result)
    requires WellFormedCommand(c)
    ensures |r.state.shown| >= |s.shown| && r.state.shown[..|s.shown|] == s.shown
  {
    match c
    case Navigate(created, names, args) => NavTo(s, created, names, args)
    case PopCommand => Pop(s)
    case PopUntilCommand(t) => PopUntil(s, t)
  }

  /** A sequence of calls, each starting from the state the previous one left. The trace
      is append-only across the whole sequence. */
  function Run(s: Nav, cs: seq<Command>): (t: Nav)
    requires forall c <- cs :: WellFormedCommand(c)
    ensures |t.shown| >= |s.shown| && t.shown[..|s.shown|] == s.shown
    decreases |cs|
  {
    if cs == [] then s
    else
      var next := Step(s, cs[0]).state;
      var t := Run(next, cs[1..]);
      assert t.shown[..|s.shown|] == t.shown[..|next.shown|][..|s.shown|];
      t
  }

  /** Every call, whether it succeeds or throws, keeps the top of the stack equal to the
      page displayed last. */
  lemma StepKeepsTopShown(s: Nav, c: Command)
    requires WellFormedCommand(c) && TopShown(s)
    ensures TopShown(Step(s, c).state)
  {
  }

  /** Through any sequence of calls, the top of the stack stays the page displayed last. */
  lemma {:induction false} RunKeepsTopShown(s: Nav, cs: seq<Command>)
    requires forall c <- cs :: WellFormedCommand(c)
    requires TopShown(s)
    ensures TopShown(Run(s, cs))
    decreases |cs|
  {
    if cs != [] {
      StepKeepsTopShown(s, cs[0]);
      var next := Step(s, cs[0]).state;
      assert forall c <- cs[1..] :: c in cs;
      RunKeepsTopShown(next, cs[1..]);
    }
  }

  /** One navigation that finds its fields pushes and displays a page of its class. */
  lemma NavigationPushes(s: Nav, c: Command)
    requires c.Navigate? && WellFormedCommand(c) && forall n <- c.names :: n in c.created.fields
    ensures var next := Step(s, c).state;
      && next.stack != []
      && next == Nav([next.stack[0]] + s.stack, s.shown + [next.stack[0]])
      && next.stack[0].cls == c.created.cls
  {
    var next := Step(s, c).state;
    assert next.stack == [next.stack[0]] + next.stack[1..];
  }

  /** Every command is a navigation whose page declares all the fields it injects. */
  predicate AllNavigationsSucceed(cs: seq<Command>) {
    forall i | 0 <= i < |cs| ::
      cs[i].Navigate? && WellFormedCommand(cs[i]) && forall n <- cs[i].names :: n in cs[i].created.fields
  }

  /** N navigations that all find their fields add N pages to the trace, one per
      navigation and of the class navigated to, in navigation order. */
  lemma {:induction false} NavigationsTrace(s: Nav, cs: seq<Command>)
    requires AllNavigationsSucceed(cs)
    ensures var t := Run(s, cs);
      && |t.shown| == |s.shown| + |cs|
      && t.shown[..|s.shown|] == s.shown
      && forall i | 0 <= i < |cs| :: t.shown[|s.shown|..][i].cls == cs[i].created.cls
    decreases |cs|
  {
    if cs != [] {
      var next := Step(s, cs[0]).state;
      NavigationPushes(s, cs[0]);
      var p := next.stack[0];
      assert AllNavigationsSucceed(cs[1..]) by {
        forall i | 0 <= i < |cs[1..]| ensures cs[1..][i] == cs[i + 1] {}
      }
      NavigationsTrace(next, cs[1..]);
      var t := Run(next, cs[1..]);
      assert Run(s, cs) == t;
      assert t.shown[..|s.shown|] == t.shown[..|next.shown|][..|s.shown|];
      SplitAt(t.shown, s.shown, p);
      var rest := t.shown[|next.shown|..];
      var added := [p] + rest;
      forall i | 0 <= i < |cs|
        ensures added[i].cls == cs[i].created.cls
      {
        if i > 0 {
          assert added[i] == rest[i - 1];
          assert cs[i] == cs[1..][i - 1];
        }
      }
    }
  }

  /** N navigations that all find their fields put the N new pages on top of the old
      stack, latest first: the stack is the new part of the trace reversed, on top of the
      old stack. */
  lemma {:induction false} NavigationsStack(s: Nav, cs: seq<Command>)
    requires AllNavigationsSucceed(cs)
    ensures var t := Run(s, cs);
      |t.shown| >= |s.shown| && t.stack == Reverse(t.shown[|s.shown|..]) + s.stack
    decreases |cs|
  {
    if cs != [] {
      var next := Step(s, cs[0]).state;
      NavigationPushes(s, cs[0]);
      var p := next.stack[0];
      assert AllNavigationsSucceed(cs[1..]) by {
        forall i | 0 <= i < |cs[1..]| ensures cs[1..][i] == cs[i + 1] {}
      }
      NavigationsStack(next, cs[1..]);
      var t := Run(next, cs[1..]);
      assert Run(s, cs) == t;
      SplitAt(t.shown, s.shown, p);
      ReverseCons(p, t.shown[|next.shown|..], s.stack);
    }
  }

  /** Navigations that find their fields are well-formed calls. */
  lemma NavigationsWellFormed(cs: seq<Command>)
    requires AllNavigationsSucceed(cs)
    ensures forall c <- cs :: WellFormedCommand(c)
  {
    forall c <- cs ensures WellFormedCommand(c) {
      var i :| 0 <= i < |cs| && cs[i] == c;
    }
  }

  /** From a fresh navigator, N successful navigations leave N pages on the stack, with a
      page of the class navigated to last on top, displayed last. */
  lemma NavigationsFromEmpty(cs: seq<Command>)
    requires AllNavigationsSucceed(cs) && cs != []
    ensures var t := Run(Initial, cs);
      && |t.stack| == |cs| && |t.shown| == |cs|
      && t.stack[0] == t.shown[|t.shown| - 1]
      && t.stack[0].cls == cs[|cs| - 1].created.cls
  {
    NavigationsWellFormed(cs);
    NavigationsTrace(Initial, cs);
    NavigationsStack(Initial, cs);
    RunKeepsTopShown(Initial, cs);
    var t := Run(Initial, cs);
    assert t.shown[|Initial.shown|..] == t.shown;
  }

  /** A sequence extending `prefix + [p]` continues with `p` right after `prefix`. */
  lemma SplitAt<T>(whole: seq<T>, prefix: seq<T>, p: T)
    requires |whole| >= |prefix| + 1 && whole[..|prefix| + 1] == prefix + [p]
    ensures whole[|prefix|..] == [p] + whole[|prefix| + 1..]
  {
    assert whole[|prefix|] == whole[..|prefix| + 1][|prefix|];
  }

  /** Reversing `[p] + rest` puts `p` after the reversed rest. */
  lemma ReverseCons<T>(p: T, rest: seq<T>, bottom: seq<T>)
    ensures Reverse([p] + rest) + bottom == Reverse(rest) + ([p] + bottom)
  {
    assert ([p] + rest)[1..] == rest;
  }
}
