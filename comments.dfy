/** Threaded comments with soft deletion: a comment holds its replies in order,
    deleting it replaces its text but keeps the replies, and displaying it lists
    the whole thread in pre-order, four spaces of indentation per level. */
module Comments {

  /** What a deleted comment shows instead of `author: text`. */
  const DeletedMessage: string := "Цей коментар було видалено."

  /** The indentation of a line on `level`: four spaces per level. */
  function Indent(level: nat): (s: string)
    ensures |s| == 4 * level
    ensures forall i :: 0 <= i < |s| ==> s[i] == ' '
  {
    if level == 0 then "" else "    " + Indent(level - 1)
  }

  class Comment {
    var text: string
    var author: string
    var replies: seq<Comment>
    var isDeleted: bool

    /** The comments of this thread, this one included. */
    ghost var Repr: set<Comment>

    /** The thread has no cycles: no comment is among its own replies, however deep.
        Replies may be shared between threads. */
    ghost predicate Valid()
      reads this, Repr
      decreases Repr
    {
      this in Repr &&
      forall i :: 0 <= i < |replies| ==>
        replies[i] in Repr && replies[i].Repr <= Repr && this !in replies[i].Repr &&
        replies[i].Valid()
    }

    /** `Comment(text, author)`: a live comment with no replies. */
    constructor (text: string, author: string)
      ensures this.text == text && this.author == author
      ensures replies == [] && !isDeleted
      ensures Valid() && Repr == {this}
    {
      this.text := text;
      this.author := author;
      replies := [];
      isDeleted := false;
      Repr := {this};
    }

    /** What the comment's line shows after the indentation. */
    function Label(): string
      reads this
    {
      if isDeleted then DeletedMessage else author + ": " + text
    }

    /** `add_reply(reply)`: appends `reply`. An acyclic thread stays acyclic when the
        reply does not lead back to it, and the lines shown below this comment gain the
        reply's lines at the end. */
    method AddReply(reply: Comment)
      modifies this`replies, this`Repr
      ensures replies == old(replies) + [reply]
      ensures Repr == old(Repr) + reply.Repr
      ensures old(Valid()) && old(reply.Valid()) && this !in old(reply.Repr) ==>
        Valid() &&
        forall level: nat ::
          ThreadLines(replies, level) == old(ThreadLines(replies, level)) + reply.Display(level)
    {
      ghost var earlier := replies;
      if Valid() && reply.Valid() && this !in reply.Repr {
        OutsideReplies();
      }
      replies := replies + [reply];
      Repr := Repr + reply.Repr;
      if old(Valid()) && old(reply.Valid()) && this !in old(reply.Repr) {
        assert AllValid(earlier) && reply.Valid();
        assert forall i :: 0 <= i < |earlier| ==> replies[i] == earlier[i];
        assert replies[|earlier|] == reply;
        assert Valid();
        forall level: nat
          ensures ThreadLines(replies, level) == old(ThreadLines(replies, level)) + reply.Display(level)
        {
          assert ThreadLines(earlier, level) == old(ThreadLines(replies, level));
          ThreadLinesAppend(earlier, reply, level);
        }
      }
    }

    /** `remove_reply()`: marks this comment deleted and replaces its text, keeping the
        replies; the display changes in this comment's own line only. */
    method RemoveReply()
      modifies this`isDeleted, this`text
      ensures isDeleted && text == DeletedMessage
      ensures replies == old(replies) && author == old(author)
      ensures old(isDeleted) && old(text) == DeletedMessage ==> unchanged(this)
      ensures old(Valid()) ==>
        Valid() &&
        forall level: nat :: Display(level) == [Indent(level) + DeletedMessage] + old(Display(level))[1..]
    {
      if Valid() {
        OutsideReplies();
      }
      isDeleted := true;
      text := DeletedMessage;
      if old(Valid()) {
        assert AllValid(replies);
        assert Valid();
        forall level: nat
          ensures Display(level) == [Indent(level) + DeletedMessage] + old(Display(level))[1..]
        {
          assert ThreadLines(replies, level + 1) == old(ThreadLines(replies, level + 1));
        }
      }
    }

    /** A comment is neither one of its replies nor inside their threads. */
    lemma OutsideReplies()
      requires Valid()
      ensures AllValid(replies)
      ensures this !in replies && this !in ReprsOf(replies)
    {
      assert forall i :: 0 <= i < |replies| ==> replies[i] in replies[i].Repr;
    }

    /** Recomputes the footprint after a reply further down the thread gained replies
        of its own; nothing the program observes changes. */
    ghost method Regather()
      modifies this`Repr
      ensures Repr == {this} + ReprsOf(replies)
      ensures AllValid(replies) && (forall i :: 0 <= i < |replies| ==> this !in replies[i].Repr) ==>
        Valid()
    {
      Repr := {this} + ReprsOf(replies);
    }

    /** `display(level)`: this comment's line, then the lines of each reply in turn,
        one level deeper. */
    function Display(level: nat): (lines: seq<string>)
      requires Valid()
      reads this, Repr
      ensures |lines| >= 1
      decreases Repr, 0, 0
    {
      [Indent(level) + Label()] + ThreadLines(replies, level + 1)
    }

    /** The comments of the thread in pre-order, each with its level. */
    ghost function Preorder(level: nat): (p: seq<(Comment, nat)>)
      requires Valid()
      reads this, Repr
      ensures |p| >= 1 && p[0] == (this, level)
      ensures forall i :: 0 <= i < |p| ==> p[i].0 in Repr
      ensures forall i :: 1 <= i < |p| ==> p[i].1 > level
      decreases Repr, 0, 0
    {
      [(this, level)] + ThreadPreorder(replies, level + 1)
    }

    /** The display is the pre-order of the thread, one line per comment, each line
        indented by its level. */
    lemma {:induction false} DisplayIsPreorder(level: nat)
      requires Valid()
      ensures Display(level) == Render(Preorder(level))
      decreases Repr, 0, 0
    {
      ThreadDisplayIsPreorder(replies, level + 1);
      RenderAppend([(this, level)], ThreadPreorder(replies, level + 1));
    }
  }

  /** The comments of the threads started by `rs`. */
  ghost function ReprsOf(rs: seq<Comment>): set<Comment>
    reads rs
  {
    set i, c | 0 <= i < |rs| && c in rs[i].Repr :: c
  }

  ghost predicate AllValid(rs: seq<Comment>)
    reads rs, ReprsOf(rs)
  {
    forall i :: 0 <= i < |rs| ==> rs[i].Valid()
  }

  /** The loop of `display` over the replies: each reply's lines in list order. */
  function ThreadLines(rs: seq<Comment>, level: nat): seq<string>
    requires AllValid(rs)
    reads rs, ReprsOf(rs)
    decreases ReprsOf(rs), 1, |rs|
  {
    if rs == [] then [] else rs[0].Display(level) + ThreadLines(rs[1..], level)
  }

  ghost function ThreadPreorder(rs: seq<Comment>, level: nat): (p: seq<(Comment, nat)>)
    requires AllValid(rs)
    reads rs, ReprsOf(rs)
    ensures forall i :: 0 <= i < |p| ==> p[i].0 in ReprsOf(rs) && p[i].1 >= level
    decreases ReprsOf(rs), 1, |rs|
  {
    if rs == [] then [] else rs[0].Preorder(level) + ThreadPreorder(rs[1..], level)
  }

  /** The line of comment `c` shown on `level`. */
  function Line(c: Comment, level: nat): string
    reads c
  {
    Indent(level) + c.Label()
  }

  /** The lines of a list of comments with their levels. */
  ghost function Render(entries: seq<(Comment, nat)>): (lines: seq<string>)
    reads set e | e in entries :: e.0
    ensures |lines| == |entries|
    ensures forall i :: 0 <= i < |entries| ==> lines[i] == Line(entries[i].0, entries[i].1)
  {
    if entries == [] then [] else [Line(entries[0].0, entries[0].1)] + Render(entries[1..])
  }

  lemma RenderAppend(a: seq<(Comment, nat)>, b: seq<(Comment, nat)>)
    ensures Render(a + b) == Render(a) + Render(b)
  {
  }

  lemma {:induction false} ThreadDisplayIsPreorder(rs: seq<Comment>, level: nat)
    requires AllValid(rs)
    ensures ThreadLines(rs, level) == Render(ThreadPreorder(rs, level))
    decreases ReprsOf(rs), 1, |rs|
  {
    if rs != [] {
      rs[0].DisplayIsPreorder(level);
      ThreadDisplayIsPreorder(rs[1..], level);
      RenderAppend(rs[0].Preorder(level), ThreadPreorder(rs[1..], level));
    }
  }

  /** Displaying one more reply appends that reply's lines. */
  lemma {:induction false} ThreadLinesAppend(rs: seq<Comment>, r: Comment, level: nat)
    requires AllValid(rs) && r.Valid()
    ensures AllValid(rs + [r])
    ensures ThreadLines(rs + [r], level) == ThreadLines(rs, level) + r.Display(level)
    decreases |rs|
  {
    if rs == [] {
      assert [r][1..] == [];
    } else {
      assert (rs + [r])[1..] == rs[1..] + [r];
      ThreadLinesAppend(rs[1..], r, level);
    }
  }
}
