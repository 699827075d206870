/** The per-task stack of ELM contexts and the mirror that is read without its lock. */
module ElmContext {
  import opened Outcomes

  const MAX_DEPTH: nat := 16

  datatype Context = Context(cellId: nat, parent: Option<nat>)

  /** The cell of the innermost context; a suspended or empty stack has none. */
  function InnerCell(stack: seq<Option<Context>>): Option<nat> {
    if |stack| > 0 && stack[|stack| - 1].Some? then Some(stack[|stack| - 1].value.cellId) else None
  }

  /** Properly nested uses: enter or suspend, do something, leave, go on. */
  datatype Script = Done | Within(context: Option<Context>, body: Script, rest: Script)

  class ContextStack {
    var depth: nat
    const entries: array<Option<Context>>
    var cell: nat
    var present: bool

    ghost predicate Valid()
      reads this, entries
    {
      && entries.Length == MAX_DEPTH && depth <= MAX_DEPTH
      && (forall i :: depth <= i < MAX_DEPTH ==> entries[i] == None)
      && Mirror() == InnerCell(Stack())
      && (!present ==> cell == 0)
    }

    ghost function Stack(): seq<Option<Context>>
      requires depth <= entries.Length
      reads this, entries
    {
      entries[..depth]
    }

    /** What the lock-free reader sees. */
    ghost function Mirror(): Option<nat>
      reads this
    {
      if present then Some(cell) else None
    }

    constructor ()
      ensures Valid() && fresh(entries) && Stack() == []
    {
      depth, cell, present := 0, 0, false;
      entries := new Option<Context>[MAX_DEPTH](_ => None);
    }

    method Push(context: Context) returns (token: Option<nat>)
      requires Valid()
      modifies this, entries
      ensures Valid()
      ensures token == if old(depth) < MAX_DEPTH then Some(old(depth) + 1) else None
      ensures Stack() == if token.Some? then old(Stack()) + [Some(context)] else old(Stack())
    {
      if depth >= MAX_DEPTH {
        return None;
      }
      entries[depth] := Some(context);
      depth := depth + 1;
      cell := context.cellId;
      present := true;
      token := Some(depth);
    }

    method Suspend() returns (token: Option<nat>)
      requires Valid()
      modifies this, entries
      ensures Valid()
      ensures token == if old(depth) < MAX_DEPTH then Some(old(depth) + 1) else None
      ensures Stack() == if token.Some? then old(Stack()) + [None] else old(Stack())
    {
      if depth >= MAX_DEPTH {
        return None;
      }
      entries[depth] := None;
      depth := depth + 1;
      cell := 0;
      present := false;
      token := Some(depth);
    }

    /** Leaves the innermost level; any other token changes nothing. */
    method Pop(token: nat)
      requires Valid()
      modifies this, entries
      ensures Valid()
      ensures Stack() == if token > 0 && token == old(depth) then old(Stack())[..token - 1] else old(Stack())
    {
      if token == 0 || depth != token {
        return;
      }
      entries[token - 1] := None;
      depth := depth - 1;
      if depth > 0 && entries[depth - 1].Some? {
        cell := entries[depth - 1].value.cellId;
        present := true;
      } else {
        cell := 0;
        present := false;
      }
    }

    /** The mirror names the cell of the current context, for every state the stack can reach. */
    method CurrentContextCell() returns (id: Option<nat>)
      requires Valid()
      ensures id == InnerCell(Stack())
    {
      id := if present then Some(cell) else None;
    }

    /** Any properly nested use, of any depth, leaves the stack and its mirror as they were. */
    method Perform(script: Script)
      requires Valid()
      modifies this, entries
      ensures Valid() && Stack() == old(Stack()) && entries[..] == old(entries[..])
      ensures depth == old(depth) && cell == old(cell) && present == old(present)
    {
      match script
      case Done =>
      case Within(context, body, rest) =>
        var token := Open(context);
        if token.Some? {
          Perform(body);
          Close(token.value, old(Stack()), old(entries[..]));
        } else {
          Same(old(Stack()), old(entries[..]));
        }
        Perform(rest);
    }

    /** Enters a context, or suspends the stack. */
    method Open(context: Option<Context>) returns (token: Option<nat>)
      requires Valid()
      modifies this, entries
      ensures Valid()
      ensures token == if old(depth) < MAX_DEPTH then Some(old(depth) + 1) else None
      ensures Stack() == if token.Some? then old(Stack()) + [context] else old(Stack())
    {
      if context.Some? {
        token := Push(context.value);
      } else {
        token := Suspend();
      }
    }

    /** Leaves the innermost level, back to a stack and an array seen before. */
    method Close(token: nat, ghost before: seq<Option<Context>>, ghost whole: seq<Option<Context>>)
      requires Valid() && depth == token == |before| + 1 && before == Stack()[..|before|]
      requires |whole| == MAX_DEPTH && whole[..|before|] == before && forall i :: |before| <= i < MAX_DEPTH ==> whole[i] == None
      modifies this, entries
      ensures Valid() && Stack() == before && entries[..] == whole
    {
      Pop(token);
      Same(before, whole);
    }

    /** The stack determines the whole array, and the mirror with it. */
    lemma Same(before: seq<Option<Context>>, whole: seq<Option<Context>>)
      requires Valid() && Stack() == before && |whole| == MAX_DEPTH && |before| <= MAX_DEPTH
      requires whole[..|before|] == before && forall i :: |before| <= i < MAX_DEPTH ==> whole[i] == None
      ensures entries[..] == whole
    {
      assert forall i :: 0 <= i < MAX_DEPTH ==> entries[..][i] == whole[i] by {
        forall i | 0 <= i < MAX_DEPTH
          ensures entries[..][i] == whole[i]
        {
          if i < |before| {
            assert entries[i] == Stack()[i] == whole[..|before|][i];
          }
        }
      }
    }
  }
}
