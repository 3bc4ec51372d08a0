/**
 The example application's two pages, taken through the collector, the generator and the
 runtime. `HomePage` declares two `@Param` fields, `greeting` and `auth`; `LoginPage`
 declares one unannotated `Scanner` field. Neither class names `@Page` itself; the round
 environment reports both as annotated (through their base class, which is not part of
 this model), so here they carry the marker directly.
 */
module Scenarios {
  import opened Wrappers
  import opened Elements
  import opened PageDescriptors
  import opened Processor
  import opened Generator
  import opened Runtime
  import opened Execution

  const DisplayMethod := Element(Method, "display", "display", TypeRef("void"), {OtherAnnotation("Override")}, [])
  const GreetingField := Element(Field, "greeting", "greeting", TypeRef("java.lang.String"), {ParamMarker}, [])
  const AuthField := Element(Field, "auth", "auth", TypeRef("com.emamagic.model.Auth"), {ParamMarker}, [])
  const ScannerField := Element(Field, "sc", "sc", TypeRef("java.util.Scanner"), {}, [])

  const HomePage := Element(Class, "HomePage", "com.emamagic.pages.HomePage",
    TypeRef("com.emamagic.pages.HomePage"), {PageMarker}, [GreetingField, AuthField, DisplayMethod])
  const LoginPage := Element(Class, "LoginPage", "com.emamagic.pages.LoginPage",
    TypeRef("com.emamagic.pages.LoginPage"), {PageMarker}, [ScannerField, DisplayMethod])

  /** Two `@Param` fields followed by a method yield the two fields. */
  lemma TwoParamsThenOther(x: Element, y: Element, z: Element)
    requires IsParam(x) && IsParam(y) && !IsParam(z)
    ensures CollectParams([x, y, z]) == [x, y]
  {
    assert [z][1..] == [];
    assert CollectParams([z]) == [];
    assert [y, z][1..] == [z];
    assert CollectParams([y, z]) == [y];
    assert [x, y, z][1..] == [y, z];
  }

  /** `HomePage` yields the parameters `greeting` then `auth`, with their declared types. */
  lemma HomePageParams()
    ensures CollectParams(HomePage.enclosed) == [GreetingField, AuthField]
    ensures ParamNames(CollectParams(HomePage.enclosed)) == ["greeting", "auth"]
  {
    TwoParamsThenOther(GreetingField, AuthField, DisplayMethod);
  }

  /** `LoginPage`'s unannotated field and its method yield no parameters. */
  lemma LoginPageParams()
    ensures CollectParams(LoginPage.enclosed) == []
  {
    CollectParamsNone(LoginPage.enclosed);
  }

  /** The members of the two pages carry no `@Page`, and neither do their members. */
  lemma NoMarkedMembers(page: Element)
    requires page == LoginPage || page == HomePage
    ensures AnnotatedWith(page.enclosed, PageMarker) == []
  {
    var ms := page.enclosed;
    assert forall i | 0 <= i < |ms| :: ms[i].enclosed == [] && PageMarker !in ms[i].annotations;
    MemberlessUnmarked(ms);
  }

  lemma {:induction false} MemberlessUnmarked(ms: seq<Element>)
    requires forall i | 0 <= i < |ms| :: ms[i].enclosed == [] && PageMarker !in ms[i].annotations
    ensures AnnotatedWith(ms, PageMarker) == []
    decreases |ms|
  {
    if ms != [] {
      assert AnnotatedWith(ms[0].enclosed, PageMarker) == [];
      MemberlessUnmarked(ms[1..]);
    }
  }

  /** The round environment reports exactly the two page classes, in order. */
  lemma ExampleAnnotated()
    ensures AnnotatedWith([LoginPage, HomePage], PageMarker) == [LoginPage, HomePage]
  {
    NoMarkedMembers(LoginPage);
    NoMarkedMembers(HomePage);
    TwoMarkedRoots(LoginPage, HomePage);
  }

  /** Two marked roots whose members carry no mark are reported as they are, in order. */
  lemma TwoMarkedRoots(x: Element, y: Element)
    requires PageMarker in x.annotations && PageMarker in y.annotations
    requires AnnotatedWith(x.enclosed, PageMarker) == [] && AnnotatedWith(y.enclosed, PageMarker) == []
    ensures AnnotatedWith([x, y], PageMarker) == [x, y]
  {
    assert [x, y][1..] == [y];
    assert AnnotatedWith([y], PageMarker) == [y] by {
      assert [y][1..] == [];
    }
  }

  /** Two page classes with different simple names are each filed under their own name. */
  lemma FileTwoClasses(x: Element, y: Element)
    requires IsPageClass(x) && IsPageClass(y) && x.simpleName != y.simpleName
    ensures BuildPageMap([x, y]) == map[x.simpleName := Describe(x), y.simpleName := Describe(y)]
  {
    assert [x, y][..1] == [x];
    assert [x][..0] == [];
    assert BuildPageMap([x]) == map[x.simpleName := Describe(x)];
  }

  const ExamplePages := map[
    "LoginPage" := PageData("com.emamagic.pages.LoginPage", []),
    "HomePage" := PageData("com.emamagic.pages.HomePage", [GreetingField, AuthField])]

  /** The processing round yields exactly the two descriptors above. */
  lemma ExampleRoundPages()
    ensures BuildPageMap(AnnotatedWith([LoginPage, HomePage], PageMarker)) == ExamplePages
  {
    ExampleAnnotated();
    HomePageParams();
    LoginPageParams();
    FileTwoClasses(LoginPage, HomePage);
  }

  /** The login page's navigation method takes no parameters. */
  lemma LoginNavToMethod()
    ensures NavToMethod("LoginPage", ExamplePages["LoginPage"]).params == []
  {
  }

  /** The home page's navigation method takes `String greeting, Auth auth` and injects
      them in that order between the construction and the push. */
  lemma HomeNavToMethod()
    ensures var m := NavToMethod("HomePage", ExamplePages["HomePage"]);
      && m.params == [Param("greeting", TypeRef("java.lang.String")), Param("auth", TypeRef("com.emamagic.model.Auth"))]
      && m.body == [NewPage("com.emamagic.pages.HomePage"), SetField("greeting"), SetField("auth"), Push, Display]
  {
    var m := NavToMethod("HomePage", ExamplePages["HomePage"]);
    assert ParamNames([GreetingField, AuthField]) == ["greeting", "auth"];
    assert Injections(["greeting", "auth"]) == [SetField("greeting"), SetField("auth")];
    assert |m.params| == 2;
  }

  /** The generated navigator offers `navToLoginPage()` and
      `navToHomePage(String greeting, Auth auth)`, with the home page's body constructing
      the page, injecting both fields in order, pushing it and displaying it. */
  lemma ExampleNavigator()
    ensures var nav := GenerateNavigator(ExamplePages);
      && NavToName("LoginPage") in nav && nav[NavToName("LoginPage")].params == []
      && NavToName("HomePage") in nav
      && nav[NavToName("HomePage")].params
         == [Param("greeting", TypeRef("java.lang.String")), Param("auth", TypeRef("com.emamagic.model.Auth"))]
      && nav[NavToName("HomePage")].body
         == [NewPage("com.emamagic.pages.HomePage"), SetField("greeting"), SetField("auth"), Push, Display]
  {
    LoginNavToMethod();
    HomeNavToMethod();
  }

  /** The instances the two constructors produce: `sc` holds a scanner, and the two
      `HomePage` fields start out null. */
  const LoginInstance := Page("com.emamagic.pages.LoginPage", map["sc" := Obj(0)])
  const HomeInstance := Page("com.emamagic.pages.HomePage", map["greeting" := Zero, "auth" := Zero])
  const Classes := map["com.emamagic.pages.LoginPage" := LoginInstance, "com.emamagic.pages.HomePage" := HomeInstance]
  /** The home page after `navToHomePage("hi ", auth)`. */
  const GreetedHome := Page("com.emamagic.pages.HomePage", map["greeting" := Str("hi "), "auth" := Obj(1)])

  /** Navigating to the login page from a fresh navigator pushes and shows it. */
  lemma LoginStep()
    ensures NavTo(Initial, LoginInstance, [], []) == Ok(Nav([LoginInstance], [LoginInstance]))
  {
  }

  /** Navigating to the home page with a greeting and a user fills in both fields, then
      pushes and shows it. */
  lemma HomeStep()
    ensures NavTo(Nav([LoginInstance], [LoginInstance]), HomeInstance, ["greeting", "auth"], [Str("hi "), Obj(1)])
      == Ok(Nav([GreetedHome, LoginInstance], [LoginInstance, GreetedHome]))
  {
    assert HomeInstance.fields["greeting" := Str("hi ")]["auth" := Obj(1)] == GreetedHome.fields;
  }

  /** Navigate to the login page, then to the home page with a greeting and a user, then
      pop: the home page is filled in and shown, and after the pop the login page is
      on top again and shown once more. */
  lemma LoginHomePop()
    ensures var afterLogin := NavTo(Initial, LoginInstance, [], []);
      var afterHome := NavTo(afterLogin.state, HomeInstance, ["greeting", "auth"], [Str("hi "), Obj(1)]);
      var afterPop := Pop(afterHome.state);
      && afterLogin == Ok(Nav([LoginInstance], [LoginInstance]))
      && afterHome == Ok(Nav([GreetedHome, LoginInstance], [LoginInstance, GreetedHome]))
      && afterPop == Ok(Nav([LoginInstance], [LoginInstance, GreetedHome, LoginInstance]))
  {
    LoginStep();
    HomeStep();
  }

  /** `navToLoginPage()` on a fresh navigator shows the login page. */
  lemma ExampleLoginCall()
    ensures Invoke(GenerateNavigator(ExamplePages), CallNavTo("LoginPage", []), Classes, Initial)
      == Returned(Ok(Nav([LoginInstance], [LoginInstance])))
  {
    LoginStep();
    GeneratedNavToRuns(ExamplePages, "LoginPage", Classes, [], Initial);
  }

  /** `navToHomePage("hi ", auth)` over the login page fills in and shows the home page. */
  lemma ExampleHomeCall()
    ensures Invoke(GenerateNavigator(ExamplePages), CallNavTo("HomePage", [Str("hi "), Obj(1)]), Classes,
                   Nav([LoginInstance], [LoginInstance]))
      == Returned(Ok(Nav([GreetedHome, LoginInstance], [LoginInstance, GreetedHome])))
  {
    HomeStep();
    assert ParamNames(ExamplePages["HomePage"].params) == ["greeting", "auth"];
    GeneratedNavToRuns(ExamplePages, "HomePage", Classes, [Str("hi "), Obj(1)], Nav([LoginInstance], [LoginInstance]));
  }

  /** The same session driven through the navigator generated for the example pages:
      `navToLoginPage()`, `navToHomePage("hi ", auth)`, `pop()`. */
  lemma ExampleSession()
    ensures var nav := GenerateNavigator(ExamplePages);
      var afterLogin := Invoke(nav, CallNavTo("LoginPage", []), Classes, Initial);
      && afterLogin == Returned(Ok(Nav([LoginInstance], [LoginInstance])))
      && var afterHome := Invoke(nav, CallNavTo("HomePage", [Str("hi "), Obj(1)]), Classes, afterLogin.result.state);
      && afterHome == Returned(Ok(Nav([GreetedHome, LoginInstance], [LoginInstance, GreetedHome])))
      && Invoke(nav, CallPop, Classes, afterHome.result.state)
         == Returned(Ok(Nav([LoginInstance], [LoginInstance, GreetedHome, LoginInstance])))
  {
    ExampleLoginCall();
    ExampleHomeCall();
    LoginHomePop();
    GeneratedPopRuns(ExamplePages, Classes, Nav([GreetedHome, LoginInstance], [LoginInstance, GreetedHome]));
  }
}
