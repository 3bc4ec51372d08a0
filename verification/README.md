# CLI_Navigation navigator generator, modelled in Dafny

CLI_Navigation is a Java annotation processor. It finds the classes marked `@Page` and the fields inside them marked `@Param`. It then generates one class, `com.emamagic.navigator.Navigator`, with these methods:

- one static `navTo<Page>(...)` per page. Its parameters are the page's `@Param` fields, in declaration order, typed as declared.
- a private reflective `setField` helper.
- `pop()` and `popUntil(Class<? extends Navigable>)`, which work over a process-wide `ArrayDeque` of page instances.

This project models three parts:

1. **Collection pass.** `Processor.Process` models `NavigationProcessor.process`:
   - `Elements.AnnotatedWith` reports the annotated elements;
   - elements whose kind is not a class are skipped;
   - each page is filed under its simple name;
   - `Processor.CollectParams` collects the `@Param` fields in order;
   - the page map is handed to the generator once, and the round reports the annotations as handled.
2. **Generator.** `Generator.GenerateNavigator` models `NavigationGenerator.generateNavigatorClass`. It produces abstract code rather than Java text: a map from method name to a method. Each method has a parameter list and a list of statements:
   - construct the page;
   - inject a field;
   - push;
   - display;
   - the bodies of `setField`, `pop` and `popUntil`.
3. **Behaviour of the generated code** (`Runtime`). The navigation stack is kept top-first, because `ArrayDeque.push`, `pop` and `peek` work at the head. Every `display()` call goes into an append-only trace. Each operation returns `Ok` or `Err` (the exception it throws). Both carry the state left behind, because `pop()` on a one-page stack removes the page before it throws. `Runtime.Message` gives each exception's message text: the exact text for the exceptions the generated code throws itself.

`Execution` ties the generator to the runtime. It gives the generated statements their meaning, statement by statement, and its lemmas prove that the generated methods behave as the `Runtime` semantics describe:

- the generated `navTo<Page>` matches `Runtime.NavTo`;
- `pop()` matches `Runtime.Pop`;
- `popUntil` matches `Runtime.PopUntil`.

`Execution` also resolves names as Java does inside a generated `navTo<Page>`. A `@Param` field named `page` collides with the method's local `page` variable, so the method does not compile (`Execution.PageParamRejected`). A `@Param` field named `stack` hides the navigator's own `stack` field, so the page is pushed into the caller's argument while it is still displayed (`Execution.StackParamBreaksTopShown`). When that argument is null, the push throws `NullPointerException` before anything is displayed (`Execution.NullStackArgumentThrows`).

`Execution.CollectedNavigationSucceeds` is the end-to-end property. It holds for the annotated elements in any iteration order, within the limits listed under "Left out". Its hypotheses are:

- every collected page class declares its fields under distinct names;
- each class's constructor produces exactly its declared fields;
- no `@Param` field is named `page` or `stack`.

Under these, every navigation method the round generates succeeds. It pushes and displays the page, and it leaves field `i` holding argument `i`.

`Scenarios` takes the example application's `LoginPage` and `HomePage` through all three parts, and `StackScenarios` states the `popUntil` examples on a three-page stack.

The generated navigation methods are named `"navTo" + pageName` (NavigationGenerator.java line 54).

`HomePage` and `LoginPage` do not write `@Page` themselves; they extend `AbstractNavigable`. `LoginPage` calls `Navigator.navToHomePage`, so the round must report `HomePage` as annotated. The scenario elements therefore carry the marker directly. `AbstractNavigable` and the annotation declarations are not part of this model.

## Model

| member | source | states |
|---|---|---|
| Elements.Descendants | navigator/src/main/java/com/emamagic/processor/NavigationProcessor.java:27 | the elements the round can report: every root is among them, so is everything an element among them encloses, and nothing else is: each one is a root or is enclosed by one of them |
| Elements.AnnotatedWith | navigator/src/main/java/com/emamagic/processor/NavigationProcessor.java:27 | an element is reported exactly when it lies in the source trees and carries the annotation |
| Processor.CollectParams | navigator/src/main/java/com/emamagic/processor/NavigationProcessor.java:33-38 | the parameters are exactly the enclosed elements that are fields with `@Param`: each one collected is such a field, and each such field is collected |
| Processor.CollectParamsLoop | navigator/src/main/java/com/emamagic/processor/NavigationProcessor.java:32-38 | the processor's inner loop collects exactly the `@Param` fields, in order |
| Processor.CollectParamsAppend | navigator/src/main/java/com/emamagic/processor/NavigationProcessor.java:33-38 | collecting over consecutive declarations concatenates the results, so declaration order is kept |
| Processor.CollectParamsSingle | navigator/src/main/java/com/emamagic/processor/NavigationProcessor.java:34-35 | one declaration contributes itself exactly when it is a field with `@Param` |
| Processor.CollectParamsNone | navigator/src/main/java/com/emamagic/processor/NavigationProcessor.java:34-35 | methods, unannotated fields and other non-parameters contribute nothing |
| Processor.CollectParamsDistinct | navigator/src/main/java/com/emamagic/processor/NavigationProcessor.java:33-38 | in a class whose fields have distinct names (as Java requires), the collected parameter names are distinct |
| Processor.Describe | navigator/src/main/java/com/emamagic/processor/NavigationProcessor.java:31-40 | the descriptor holds the class's qualified name, and its parameters are exactly the fields the class encloses that carry `@Param` |
| Processor.BuildPageMap | navigator/src/main/java/com/emamagic/processor/NavigationProcessor.java:27-41 | the page map's keys are exactly the simple names of annotated elements of kind CLASS; interfaces, enums, records and the rest are skipped |
| Processor.PageMapLastWins | navigator/src/main/java/com/emamagic/processor/NavigationProcessor.java:40 | duplicate simple names overwrite: a class with no later class of the same name is what the map holds under that name |
| Processor.PageMapEntriesFromClasses | navigator/src/main/java/com/emamagic/processor/NavigationProcessor.java:27-40 | every entry is the descriptor of some annotated class filed under its own simple name |
| Processor.PageMapEntries | navigator/src/main/java/com/emamagic/processor/NavigationProcessor.java:27-40 | every entry's qualified name and parameters come from an annotated class of that simple name |
| Processor.Process | navigator/src/main/java/com/emamagic/processor/NavigationProcessor.java:24-46 | the round returns true; the page map it builds is the one the loop builds over the `@Page` elements in the order they are reported, so of two classes with the same simple name the later one wins; its keys are exactly the annotated classes' simple names, each entry comes from such a class, and the generator receives that map |
| Generator.JavaNameInjective | navigator/src/main/java/com/emamagic/generator/NavigationGenerator.java:54 | two generated methods get the same Java identifier exactly when they are the same method: distinct pages never share `navTo<Page>`, and none clashes with `setField`, `pop` or `popUntil` |
| Generator.JavaName | navigator/src/main/java/com/emamagic/generator/NavigationGenerator.java:54 | a navigation identifier starts with `n` and ends with its page name; `setField` starts with `s`; `pop` is the 3-letter identifier that starts with `p` |
| Generator.PageOfJavaName | navigator/src/main/java/com/emamagic/generator/NavigationGenerator.java:54 | any identifier that starts with `navTo` is the navigation identifier of the page named by the rest of it |
| Generator.JavaNameRoundTrip | navigator/src/main/java/com/emamagic/generator/NavigationGenerator.java:54 | reading back the page from a navigation method's identifier gives the page it was generated for |
| Generator.ParamsAndInjections | navigator/src/main/java/com/emamagic/generator/NavigationGenerator.java:60-64 | each page parameter adds, at its own position, a method parameter with its name and declared type and a `setField` statement for that name |
| Generator.InjectionsAgree | navigator/src/main/java/com/emamagic/generator/NavigationGenerator.java:60-64 | the injections the generator's parameter walk emits are exactly one `setField` per parameter name, in parameter order |
| Generator.NavToMethod | navigator/src/main/java/com/emamagic/generator/NavigationGenerator.java:54-68 | the navigation method is named after the page; its parameters are the page's fields in order with their declared types; its body constructs the qualified class, injects each parameter, pushes and displays |
| Generator.NavToBodyOrder | navigator/src/main/java/com/emamagic/generator/NavigationGenerator.java:58-67 | the body has one statement per parameter plus three: construction first, injection i at position 1 + i, push second to last, display last |
| Generator.NavToParamsMatchInjections | navigator/src/main/java/com/emamagic/generator/NavigationGenerator.java:60-64 | the i-th method parameter's name is the field the i-th injection writes |
| Generator.MethodFor | navigator/src/main/java/com/emamagic/generator/NavigationGenerator.java:32-98 | the method generated under a name carries that name |
| Generator.GenerateNavigator | navigator/src/main/java/com/emamagic/generator/NavigationGenerator.java:32-98 | the class holds exactly one navigation method per page plus `setField`, `pop` and `popUntil`; every navigation method belongs to a collected page; each method is the one built for its page or the fixed shared method |
| Generator.OneNavToPerPage | navigator/src/main/java/com/emamagic/generator/NavigationGenerator.java:50-69 | a navigation method exists for a page name exactly when the page map holds that name |
| Runtime.SetField | navigator/src/main/java/com/emamagic/generator/NavigationGenerator.java:37-44 | the write succeeds exactly when the class declares the field; it sets that field and leaves the other fields and the class alone; otherwise it fails naming the field |
| Runtime.InjectAll | navigator/src/main/java/com/emamagic/generator/NavigationGenerator.java:60-64 | all injections succeed exactly when every named field exists; a failure names a missing field from the list; fields not named keep their values |
| Runtime.InjectAllStopsAtFirstMissing | navigator/src/main/java/com/emamagic/generator/NavigationGenerator.java:42-43 | the exception comes from the first missing field: every field named before it exists |
| Runtime.InjectAllWritesArguments | navigator/src/main/java/com/emamagic/generator/NavigationGenerator.java:60-64 | with distinct names, field i ends up holding argument i |
| Runtime.NavTo | navigator/src/main/java/com/emamagic/generator/NavigationGenerator.java:58-67 | it throws exactly when some parameter field is missing, and then the stack and trace are untouched; otherwise the new page is pushed on the unchanged stack and displayed, and it has the constructed page's class and field set |
| Runtime.NavToInjectsArguments | navigator/src/main/java/com/emamagic/generator/NavigationGenerator.java:60-67 | after a successful navigation the new top holds the arguments in parameter order |
| Runtime.MessageIdentifiesFailure | navigator/src/main/java/com/emamagic/generator/NavigationGenerator.java:43-93 | two exceptions carry the same message exactly when they are the same failure: the five messages differ, and each names its field or type or the exception's class |
| Runtime.Pop | navigator/src/main/java/com/emamagic/generator/NavigationGenerator.java:71-83 | with two or more pages: removes the top and displays the new top; with one page: removes it and throws "page stack couldn't be empty." with the stack empty; with none: throws "No pages to pop." and changes nothing |
| Runtime.PopCount | navigator/src/main/java/com/emamagic/generator/NavigationGenerator.java:89-91 | the loop removes at most the whole stack; no removed page is an instance of the type; if it stops early, the page it stops at is one |
| Runtime.PopCountSkips | navigator/src/main/java/com/emamagic/generator/NavigationGenerator.java:89-90 | a top that is not an instance of the type is popped and the walk continues below it |
| Runtime.PopCountStops | navigator/src/main/java/com/emamagic/generator/NavigationGenerator.java:89 | a top that is an instance of the type ends the walk with nothing popped |
| Runtime.PopUntil | navigator/src/main/java/com/emamagic/generator/NavigationGenerator.java:86-97 | it succeeds exactly when the stack holds an instance of the type; only non-instances above the first instance are removed, and that instance is displayed; otherwise the stack is emptied, nothing is displayed, and the failure names the type |
| Runtime.PopUntilKeepsMatchingTop | navigator/src/main/java/com/emamagic/generator/NavigationGenerator.java:89-95 | if the top is already an instance, nothing is removed and the top is redisplayed |
| Runtime.PopUntilIdempotent | navigator/src/main/java/com/emamagic/generator/NavigationGenerator.java:86-97 | a second `popUntil` with the same type leaves the stack where the first left it |
| Runtime.PopUndoesNavTo | navigator/src/main/java/com/emamagic/generator/NavigationGenerator.java:66-79 | `pop` after a successful navigation restores the previous stack and redisplays its top; from an empty stack it throws "page stack couldn't be empty." instead |
| Runtime.StepKeepsTopShown | navigator/src/main/java/com/emamagic/generator/NavigationGenerator.java:66-95 | every call, whether it returns or throws, keeps the top of the stack equal to the page displayed last |
| Runtime.RunKeepsTopShown | navigator/src/main/java/com/emamagic/generator/NavigationGenerator.java:66-95 | through any sequence of calls, the top of the stack stays the page displayed last |
| Runtime.Step | navigator/src/main/java/com/emamagic/generator/NavigationGenerator.java:66-95 | no single call, returning or throwing, removes an earlier display from the trace |
| Runtime.NavigationPushes | navigator/src/main/java/com/emamagic/generator/NavigationGenerator.java:66-67 | a navigation whose fields all exist pushes one page of the constructed class on the old stack and appends it to the trace |
| Runtime.NavigationsTrace | navigator/src/main/java/com/emamagic/generator/NavigationGenerator.java:66-67 | N successful navigations add N pages to the trace, in call order and of the classes navigated to, keeping the earlier trace |
| Runtime.NavigationsStack | navigator/src/main/java/com/emamagic/generator/NavigationGenerator.java:22-25 | after successful navigations the stack is the pages they displayed, latest on top, over the old stack |
| Runtime.NavigationsFromEmpty | navigator/src/main/java/com/emamagic/generator/NavigationGenerator.java:22-25 | N successful navigations from a fresh navigator leave exactly N pages on the stack, with the page navigated to last on top and displayed last |
| Runtime.Run | navigator/src/main/java/com/emamagic/generator/NavigationGenerator.java:66-95 | no sequence of calls ever removes an earlier display from the trace |
| Execution.Bind | navigator/src/main/java/com/emamagic/generator/NavigationGenerator.java:62 | every parameter name is bound |
| Execution.BindOnlyParams | navigator/src/main/java/com/emamagic/generator/NavigationGenerator.java:62 | binding introduces no name besides the parameters' |
| Execution.BoundNames | navigator/src/main/java/com/emamagic/generator/NavigationGenerator.java:60-62 | parameters named after fields bind exactly those field names |
| Execution.ExecBody | navigator/src/main/java/com/emamagic/generator/NavigationGenerator.java:58-95 | running any generated body, under Java's name resolution, never removes an earlier display from the trace |
| Execution.Invoke | navigator/src/main/java/com/emamagic/generator/NavigationGenerator.java:54-98 | invoking any method of a generated class never removes an earlier display from the trace |
| Execution.BindDistinct | navigator/src/main/java/com/emamagic/generator/NavigationGenerator.java:60-63 | with distinct parameter names, each name is bound to the argument in its position |
| Execution.InjectionsRun | navigator/src/main/java/com/emamagic/generator/NavigationGenerator.java:60-64 | running the injection statements injects the arguments in order: the first missing field throws with the stack and trace untouched, otherwise execution continues with the filled-in page |
| Execution.PushThenDisplay | navigator/src/main/java/com/emamagic/generator/NavigationGenerator.java:66-67 | pushing then displaying appends the page to the trace and puts it on top of the navigator's stack, unless a parameter named `stack` receives the push; a null `stack` argument throws `NullPointerException` at the push, with nothing displayed |
| Execution.NavToBodyRuns | navigator/src/main/java/com/emamagic/generator/NavigationGenerator.java:57-67 | running a navigation body with no parameter named `page`, each field name bound to its argument, is `Runtime.NavTo` on the constructed instance, or `NavToIntoArgument` when a parameter is named `stack` |
| Execution.BindNavToParams | navigator/src/main/java/com/emamagic/generator/NavigationGenerator.java:60-63 | invoking a navigation method binds each page field name to the argument in its position |
| Execution.BindFieldNames | navigator/src/main/java/com/emamagic/generator/NavigationGenerator.java:60-63 | parameters named after distinct fields, position by position, bind each field name to the argument in its position |
| Execution.NavToMethodRuns | navigator/src/main/java/com/emamagic/generator/NavigationGenerator.java:54-68 | a class holding a page's navigation method with no parameter named `page`, invoked with one argument per parameter, behaves as `Runtime.NavTo`, or as `NavToIntoArgument` when a parameter is named `stack` |
| Execution.GeneratedNavToRuns | navigator/src/main/java/com/emamagic/generator/NavigationGenerator.java:50-69 | the generated `navTo<Page>` for a collected page with no parameter named `page` behaves as `Runtime.NavTo` on the instance the page's constructor produces, or as `NavToIntoArgument` when a parameter is named `stack` |
| Execution.ArgumentNamed | navigator/src/main/java/com/emamagic/generator/NavigationGenerator.java:60-62 | the argument passed for a named parameter is the one in a position holding that name; with no such parameter it is `Zero` |
| Execution.BoundArgument | navigator/src/main/java/com/emamagic/generator/NavigationGenerator.java:60-62 | with distinct parameter names, a parameter's name is bound to the argument passed for it |
| Execution.NavToIntoArgument | navigator/src/main/java/com/emamagic/generator/NavigationGenerator.java:60-67 | with a parameter named `stack`: when `Runtime.NavTo` throws, navigation throws identically; otherwise a null `stack` argument throws `NullPointerException` with the state unchanged; navigation succeeds exactly when `Runtime.NavTo` does and the argument is not null, and then it displays what `Runtime.NavTo` displays and leaves the navigator's stack unchanged |
| Execution.PageParamRejected | navigator/src/main/java/com/emamagic/generator/NavigationGenerator.java:58-62 | a navigation method with a parameter named `page` redeclares its local `page`, so the Java compiler rejects it |
| Execution.StackParamBreaksTopShown | navigator/src/main/java/com/emamagic/generator/NavigationGenerator.java:62-67 | a page with a `@Param` field named `stack`, whose fields all exist, called with a non-null collection for that parameter, navigates without error and displays the new page, but the navigator's stack keeps its old top; an old top of another class is then no longer the page displayed last |
| Execution.NullStackArgumentThrows | navigator/src/main/java/com/emamagic/generator/NavigationGenerator.java:62-67 | the same page called with null for its `stack` parameter throws `NullPointerException` at the push and leaves the navigation state as it was: nothing pushed, nothing displayed |
| Execution.InvokeNavTo | navigator/src/main/java/com/emamagic/generator/NavigationGenerator.java:54-55 | invoking a navigation method runs its body with its parameters bound |
| Execution.UncollectedPageHasNoNavTo | navigator/src/main/java/com/emamagic/generator/NavigationGenerator.java:50-69 | there is no navigation method for a page that was not collected |
| Execution.GeneratedPopRuns | navigator/src/main/java/com/emamagic/generator/NavigationGenerator.java:71-84 | the generated `pop()` behaves as `Runtime.Pop` |
| Execution.GeneratedPopUntilRuns | navigator/src/main/java/com/emamagic/generator/NavigationGenerator.java:86-98 | the generated `popUntil(page)` behaves as `Runtime.PopUntil` |
| Execution.CollectedNamesFree | navigator/src/main/java/com/emamagic/processor/NavigationProcessor.java:33-38 | a class with no `@Param` field named `page` or `stack` yields navigation parameters with neither name |
| Execution.CollectedParamsDeclared | navigator/src/main/java/com/emamagic/processor/NavigationProcessor.java:34-35 | every collected parameter name is a field the class declares |
| Execution.NavToNavigated | navigator/src/main/java/com/emamagic/generator/NavigationGenerator.java:58-67 | a navigation whose parameter fields all exist and are distinct pushes and displays one page holding argument i in field i |
| Execution.NavigationSucceedsFor | navigator/src/main/java/com/emamagic/generator/NavigationGenerator.java:50-69 | the generated navigation method of a page never throws, and fills field i with argument i, when the page comes from a class whose fields have distinct names, whose constructor yields exactly its declared fields, and which has no `@Param` field named `page` or `stack` |
| Execution.CollectedNavigationSucceeds | navigator/src/main/java/com/emamagic/generator/NavigationGenerator.java:54-67 | for the annotated elements in any iteration order, and for every page collected from them, when every collected class has distinct field names, a constructor yielding exactly its declared fields, and no `@Param` field named `page` or `stack`, the generated navigation method never throws: it pushes and displays one page whose field i holds argument i |
| Scenarios.HomePageParams | example/src/main/java/com/emamagic/pages/HomePage.java:9-13 | `HomePage` yields the parameters `greeting` then `auth` |
| Scenarios.TwoParamsThenOther | navigator/src/main/java/com/emamagic/processor/NavigationProcessor.java:33-38 | two `@Param` fields followed by a non-parameter yield exactly the two fields, in order |
| Scenarios.LoginPageParams | example/src/main/java/com/emamagic/pages/LoginPage.java:10 | `LoginPage`'s unannotated `sc` field yields no parameter |
| Scenarios.ExampleAnnotated | navigator/src/main/java/com/emamagic/processor/NavigationProcessor.java:27 | the round reports the two page classes and none of their members |
| Scenarios.FileTwoClasses | navigator/src/main/java/com/emamagic/processor/NavigationProcessor.java:40 | two page classes with different simple names are each filed under their own name |
| Scenarios.ExampleRoundPages | navigator/src/main/java/com/emamagic/processor/NavigationProcessor.java:27-40 | the example round's page map is exactly two descriptors: `LoginPage` with no parameters and `HomePage` with `greeting` and `auth`, each under its simple name |
| Scenarios.LoginNavToMethod | navigator/src/main/java/com/emamagic/generator/NavigationGenerator.java:54-64 | `navToLoginPage` takes no parameters |
| Scenarios.HomeNavToMethod | navigator/src/main/java/com/emamagic/generator/NavigationGenerator.java:54-67 | `navToHomePage` takes `String greeting, Auth auth` and injects them in that order between construction and push |
| Scenarios.ExampleNavigator | navigator/src/main/java/com/emamagic/generator/NavigationGenerator.java:54-67 | the example gets `navToLoginPage()` and `navToHomePage(String greeting, Auth auth)`, whose body constructs, injects `greeting` then `auth`, pushes and displays |
| Scenarios.LoginStep | navigator/src/main/java/com/emamagic/generator/NavigationGenerator.java:58-67 | navigating to the login page from a fresh navigator pushes and shows it |
| Scenarios.HomeStep | example/src/main/java/com/emamagic/pages/LoginPage.java:16 | navigating to the home page with `"hi "` and a user over the login page fills both fields, then pushes and shows it |
| Scenarios.LoginHomePop | example/src/main/java/com/emamagic/pages/LoginPage.java:16 | navigating to login, then to home with `"hi "` and a user, then popping: home holds the arguments, and afterwards login is alone on the stack and displayed again |
| Scenarios.ExampleLoginCall | example/src/main/java/com/emamagic/pages/LoginPage.java:12-17 | the generated `navToLoginPage()` on an empty navigator shows the login page |
| Scenarios.ExampleHomeCall | example/src/main/java/com/emamagic/pages/LoginPage.java:16 | the generated `navToHomePage("hi ", auth)` over the login page fills in and shows the home page |
| Scenarios.ExampleSession | example/src/main/java/com/emamagic/pages/LoginPage.java:12-17 | the login, home, pop session driven through the generated navigator ends with login alone on the stack, after the displays login, home, login |
| StackScenarios.PopUntilFindsBottom | navigator/src/main/java/com/emamagic/generator/NavigationGenerator.java:89-95 | on A, B, C with C on top, `popUntil(A)` removes C and B and displays A |
| StackScenarios.PopTwoToBottom | navigator/src/main/java/com/emamagic/generator/NavigationGenerator.java:89-91 | on A, B, C with C on top, the loop looking for an A removes exactly two pages |
| StackScenarios.PopUntilFindsNothing | navigator/src/main/java/com/emamagic/generator/NavigationGenerator.java:92-93 | on A alone, `popUntil(B)` removes A and throws, naming B |

## Left out

- The Java text of the generated class is not modelled: JavaPoet builders, modifiers, imports and the private throwing constructor (NavigationGenerator.java lines 20-30). Each method is an abstract name, parameter list and statement list.
- Writing the file through the `Filer` is not modelled. That includes the `IOException` that NavigationGenerator.java lines 103-107 swallow. Nothing is written, so no write can fail.
- Type checking of the generated code is not modelled. Parameter types are opaque tokens copied from the field declarations. A call with the wrong argument types does not arise, because the model's calls carry untyped values.
- The body of `setField` is the opaque statement `ReflectiveSet`. The only reflective failure modelled is the missing field (`NoSuchFieldException`). Access failures and type mismatches in `Field.set` are left out, because they depend on the JVM and the field's modifiers. Navigation methods inject through the `Runtime.SetField` semantics directly. Invoking the private helper on its own gives `Stuck`, because the model has no `Object` argument to pass.
- `getElementsAnnotatedWith` returns an unordered set, and `HashMap` iteration order is unspecified. `Elements.AnnotatedWith` is one admissible order, a pre-order walk. With two classes of the same simple name, which one wins depends on that order. `Processor.PageMapLastWins` states the rule for any order. No build-time duplicate-name error exists in the code, so none is modelled.
- `@Inherited` annotation lookup through superclasses is not modelled. Elements carry the annotations the round environment reports for them.
- What `display()` does is not modelled: printing, reading input, and `LoginPage` calling `navToHomePage` from inside its own `display()`. A display is recorded in the trace and does nothing else.
- Constructor side effects are a parameter. The instance `new T()` produces comes from a class table, so field initialisers such as `LoginPage.sc` are modelled. Constructors that throw are not.
- Concurrency is not modelled. The stack is a single-threaded value passed from call to call.
- Generator.GenerateNavigator: does not model `ClassName.bestGuess` (NavigationGenerator.java line 57). That call throws at build time when no part of the qualified name starts with an upper-case letter, for example a class named `loginPage`. It also splits at the wrong dot when a package part starts with an upper-case letter. The model always emits the qualified name as written.
- Execution.CollectedNavigationSucceeds: does not model compile-time typing of `stack.push(page)` and `page.display()` (NavigationGenerator.java lines 66-67). A `@Page` class that does not implement `Navigable` makes the generated class fail to compile; the model emits and runs it. Its hypotheses also exclude `@Param` fields named `page` or `stack`. Those two cases are stated separately by `Execution.PageParamRejected` and `Execution.StackParamBreaksTopShown`.
- Execution.NavigationSucceedsFor: has the same `Navigable` limit and the same exclusion of `@Param` fields named `page` or `stack`.
- Execution.NavToMethodRuns: requires that no parameter be named `page`. That case is stated by `Execution.PageParamRejected`.
- Execution.GeneratedNavToRuns: requires that no parameter be named `page`, as above.
- Execution.NavToBodyRuns: requires that `page` not be bound, as above.
- Execution.ExecBody: treats a parameter named `stack` as a collection with a `push` method. If the field's type has no such method, the Java compiler rejects the navigation method instead. A non-null collection whose `push` throws (an unmodifiable or bounded one) is treated as accepting the page.
- Execution.StackParamBreaksTopShown: requires a non-null `stack` argument. The null case is stated by `Execution.NullStackArgumentThrows`.
- Runtime.SetField: writes the field of the one instance. A `static` `@Param` field is shared by all instances of the class, so `field.set` (NavigationGenerator.java line 41) changes it for every page of that class already on the stack. Field modifiers are not modelled.
- Runtime.Message: the message of a `NullPointerException` depends on the JVM (none, or a helpful message naming the null expression). The model uses the exception's class name in its place.
- Runtime.PopUntil: the `Class` argument is never null in the model. `popUntil(null)` throws `NullPointerException` in Java: at NavigationGenerator.java line 89 when the stack is not empty, and at line 93 when it is empty.
- Runtime.NavTo: for a field that appears twice in the parameter list, it does not say which write wins. Java forbids two fields with the same name, and `Processor.CollectParamsDistinct` shows that collected names are distinct.
