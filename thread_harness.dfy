/** The thread the comment program builds and displays: a root comment with two
    replies, a reply to the first reply, and then the first reply deleted. The
    reply to the deleted comment is still shown, one level below it. */
module ThreadHarness {
  import opened Comments

  // The authors and texts of the four comments.
  const RootAuthor: string := "Бодя"
  const RootText: string := "Яка чудова книга!"
  const FirstAuthor: string := "Андрій"
  const FirstText: string := "Книга повне розчарування :("
  const SecondAuthor: string := "Марина"
  const SecondText: string := "Що в ній чудового?"
  const NestedAuthor: string := "Сергій"
  const NestedText: string := "Не книжка, а перевели купу паперу ні нащо..."

  /** A thread of this shape is acyclic, and it displays in pre-order. */
  lemma ThreadLayout(root: Comment, first: Comment, second: Comment, nested: Comment)
    requires root.replies == [first, second] && first.replies == [nested]
    requires second.replies == [] && nested.replies == []
    requires nested.Repr == {nested} && second.Repr == {second} && first.Repr == {first, nested}
    requires root.Repr == {root} + ReprsOf(root.replies)
    requires root != first && root != second && root != nested && first != second && first != nested && second != nested
    ensures root.Valid()
    ensures root.Display(0) == [Line(root, 0), Line(first, 1), Line(nested, 2), Line(second, 1)]
  {
    assert nested.Valid() && second.Valid();
    assert first.replies[0] == nested;
    assert first.Valid();
    assert ReprsOf(root.replies) == {first, nested, second} by {
      assert root.replies[0] == first && root.replies[1] == second;
    }
    assert root.Valid();
    assert nested.Display(2) == [Line(nested, 2)];
    assert second.Display(1) == [Line(second, 1)];
    assert first.Display(1) == [Line(first, 1)] + ThreadLines([nested], 2);
    assert ThreadLines([nested], 2) == nested.Display(2) + ThreadLines([], 2);
    assert ThreadLines([first, second], 1) == first.Display(1) + ThreadLines([second], 1) by {
      assert [first, second][1..] == [second];
    }
    assert ThreadLines([second], 1) == second.Display(1) + ThreadLines([], 1);
  }

  /** The steps of the program: two replies to the root, a reply to the first reply,
      then the first reply deleted. */
  method BuildThread() returns (root: Comment, first: Comment, second: Comment, nested: Comment)
    ensures root.replies == [first, second] && first.replies == [nested]
    ensures second.replies == [] && nested.replies == []
    ensures nested.Repr == {nested} && second.Repr == {second} && first.Repr == {first, nested}
    ensures fresh(root) && fresh(first) && fresh(second) && fresh(nested)
    ensures root != first && root != second && root != nested
    ensures first != second && first != nested && second != nested
    ensures root.author == RootAuthor && root.text == RootText && !root.isDeleted
    ensures first.isDeleted && first.text == DeletedMessage
    ensures second.author == SecondAuthor && second.text == SecondText && !second.isDeleted
    ensures nested.author == NestedAuthor && nested.text == NestedText && !nested.isDeleted
  {
    root := new Comment(RootText, RootAuthor);
    first := new Comment(FirstText, FirstAuthor);
    second := new Comment(SecondText, SecondAuthor);
    root.AddReply(first);
    root.AddReply(second);
    assert root.replies == [first, second];
    nested := new Comment(NestedText, NestedAuthor);
    first.AddReply(nested);
    assert first.replies == [nested] && first.Repr == {first, nested};
    first.RemoveReply();
  }

  /** The displayed thread: the root, the deleted first reply with its own reply one
      level deeper, then the second reply. */
  method ThreadScenario() returns (lines: seq<string>)
    ensures lines == [
      Indent(0) + (RootAuthor + ": " + RootText),
      Indent(1) + DeletedMessage,
      Indent(2) + (NestedAuthor + ": " + NestedText),
      Indent(1) + (SecondAuthor + ": " + SecondText)]
  {
    var root, first, second, nested := BuildThread();
    root.Regather();
    ThreadLayout(root, first, second, nested);
    lines := root.Display(0);
  }
}
