/** The stack scenarios of `popUntil`, on three pages of distinct classes A, B and C. */
module StackScenarios {
  import opened Runtime

  const A := Page("A", map[])
  const B := Page("B", map[])
  const C := Page("C", map[])

  predicate IsA(p: Page) { p.cls == "A" }
  predicate IsB(p: Page) { p.cls == "B" }

  /** The types whose instances are exactly the pages of class A, or of class B. */
  const TypeA := PageType("A", IsA)
  const TypeB := PageType("B", IsB)

  /** Walking down A, B, C from C pops two pages and stops at A. */
  lemma PopTwoToBottom()
    ensures PopCount([C, B, A], TypeA) == 2
  {
    PopCountStops(A, [], TypeA);
    PopCountSkips(B, [A], TypeA);
    PopCountSkips(C, [B, A], TypeA);
    assert [B] + [A] == [B, A] && [C] + [B, A] == [C, B, A];
  }

  /** On the stack A, B, C with C on top, popping until an A pops C and B, shows A and
      succeeds. */
  lemma PopUntilFindsBottom()
    ensures PopUntil(Nav([C, B, A], []), TypeA) == Ok(Nav([A], [A]))
  {
    PopTwoToBottom();
    assert [C, B, A][2..] == [A];
  }

  /** On the stack holding only A, popping until a B pops A and throws with the stack
      empty. */
  lemma PopUntilFindsNothing()
    ensures PopUntil(Nav([A], [A]), TypeB) == Err(Nav([], [A]), NoMatchingPage("B"))
  {
    PopCountSkips(A, [], TypeB);
  }
}
