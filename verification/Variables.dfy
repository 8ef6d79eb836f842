/** variables.c: the variable store, a linked list searched from the front and updated in place. */
module Variables {
  import opened CStrings
  import opened Options
  import opened LinkedLists

  datatype Binding = Binding(key: string, value: string)

  type Env = map<string, string>

  /** What the list means: the first binding of a key counts. */
  function EnvOf(bs: seq<Binding>): Env {
    if bs == [] then map[] else EnvOf(bs[1..])[bs[0].key := bs[0].value]
  }

  function Lookup(env: Env, key: string): Option<string> {
    if key in env then Some(env[key]) else None
  }

  ghost predicate UniqueKeys(bs: seq<Binding>) {
    forall i, j :: 0 <= i < j < |bs| ==> bs[i].key != bs[j].key
  }

  predicate HasKey(bs: seq<Binding>, key: string) {
    exists i :: 0 <= i < |bs| && bs[i].key == key
  }

  /** The list after an assignment: the binding changes in place, or a new one comes first. */
  function Assigned(bs: seq<Binding>, key: string, value: string): seq<Binding> {
    if !HasKey(bs, key) then [Binding(key, value)] + bs else Replaced(bs, key, value)
  }

  function Replaced(bs: seq<Binding>, key: string, value: string): (r: seq<Binding>)
    ensures |r| == |bs|
  {
    if bs == [] then []
    else if bs[0].key == key then [Binding(key, value)] + bs[1..]
    else [bs[0]] + Replaced(bs[1..], key, value)
  }

  function Reversed(bs: seq<Binding>): (r: seq<Binding>)
    ensures |r| == |bs|
  {
    if bs == [] then [] else Reversed(bs[1..]) + [bs[0]]
  }

  lemma {:induction false} EnvKeys(bs: seq<Binding>, key: string)
    ensures key in EnvOf(bs) <==> HasKey(bs, key)
  {
    if bs != [] {
      EnvKeys(bs[1..], key);
      if HasKey(bs[1..], key) {
        var i :| 0 <= i < |bs| - 1 && bs[1..][i].key == key;
        assert bs[i + 1].key == key;
      }
      if HasKey(bs, key) && bs[0].key != key {
        var i :| 0 <= i < |bs| && bs[i].key == key;
        assert bs[1..][i - 1].key == key;
      }
    }
  }

  /** In a list with unique keys, the environment holds exactly its bindings. */
  lemma {:induction false} EnvAt(bs: seq<Binding>, i: nat)
    requires UniqueKeys(bs) && i < |bs|
    ensures bs[i].key in EnvOf(bs) && EnvOf(bs)[bs[i].key] == bs[i].value
  {
    if i > 0 { EnvAt(bs[1..], i - 1); }
  }

  lemma UpdatesCommute(env: Env, k1: string, v1: string, k2: string, v2: string)
    requires k1 != k2
    ensures env[k1 := v1][k2 := v2] == env[k2 := v2][k1 := v1]
  {
  }

  lemma {:induction false} ReplacedEnv(bs: seq<Binding>, key: string, value: string)
    requires HasKey(bs, key)
    ensures EnvOf(Replaced(bs, key, value)) == EnvOf(bs)[key := value]
    ensures forall i :: 0 <= i < |bs| ==> Replaced(bs, key, value)[i].key == bs[i].key
  {
    if bs[0].key != key {
      assert HasKey(bs[1..], key) by {
        var i :| 0 <= i < |bs| && bs[i].key == key;
        assert bs[1..][i - 1].key == key;
      }
      ReplacedEnv(bs[1..], key, value);
      assert Replaced(bs, key, value)[1..] == Replaced(bs[1..], key, value);
      UpdatesCommute(EnvOf(bs[1..]), bs[0].key, bs[0].value, key, value);
    }
  }

  /** The list refines a mathematical map, and keys stay unique. */
  lemma AssignedEnv(bs: seq<Binding>, key: string, value: string)
    ensures EnvOf(Assigned(bs, key, value)) == EnvOf(bs)[key := value]
    ensures UniqueKeys(bs) ==> UniqueKeys(Assigned(bs, key, value))
  {
    if HasKey(bs, key) { ReplacedEnv(bs, key, value); }
  }

  /** The key found at `i` and nowhere before is the one replaced. */
  lemma {:induction false} ReplacedAt(bs: seq<Binding>, key: string, value: string, i: nat)
    requires i < |bs| && bs[i].key == key && forall j :: 0 <= j < i ==> bs[j].key != key
    ensures Replaced(bs, key, value) == bs[i := Binding(key, value)]
  {
    if i > 0 {
      ReplacedAt(bs[1..], key, value, i - 1);
      assert bs == [bs[0]] + bs[1..];
    }
  }

  lemma {:induction false} ReversedAt(bs: seq<Binding>, i: nat)
    requires i < |bs|
    ensures Reversed(bs)[i] == bs[|bs| - 1 - i]
  {
    if i < |bs| - 1 { ReversedAt(bs[1..], i); }
  }

  /** Reversing a list with unique keys changes no lookup. */
  lemma ReversedEnv(bs: seq<Binding>)
    requires UniqueKeys(bs)
    ensures UniqueKeys(Reversed(bs)) && EnvOf(Reversed(bs)) == EnvOf(bs)
  {
    var rs := Reversed(bs);
    forall i | 0 <= i < |bs| ensures rs[i] == bs[|bs| - 1 - i] {
      ReversedAt(bs, i);
    }
    forall key ensures key in EnvOf(rs) <==> key in EnvOf(bs)
      ensures key in EnvOf(bs) ==> EnvOf(rs)[key] == EnvOf(bs)[key]
    {
      EnvKeys(bs, key);
      EnvKeys(rs, key);
      if HasKey(bs, key) {
        var i :| 0 <= i < |bs| && bs[i].key == key;
        assert rs[|bs| - 1 - i].key == key;
        EnvAt(bs, i);
        EnvAt(rs, |bs| - 1 - i);
      }
      if HasKey(rs, key) {
        var i :| 0 <= i < |rs| && rs[i].key == key;
        assert bs[|bs| - 1 - i].key == key;
      }
    }
  }

  class VariableStore {
    var head: Cell?<Binding>
    ghost var spine: seq<Cell<Binding>>
    ghost var bindings: seq<Binding>
    ghost var repr: set<Cell<Binding>>

    ghost predicate Valid()
      reads this, repr
    {
      && (forall c :: c in spine ==> c in repr)
      && Chain(head, spine, bindings) && UniqueKeys(bindings)
    }

    ghost function Env(): Env
      reads this
    {
      EnvOf(bindings)
    }

    constructor ()
      ensures Valid() && Env() == map[] && repr == {}
    {
      head, spine, bindings, repr := null, [], [], {};
    }

    /** The search both `set_variable` and `get_variable` begin with. */
    method FindCell(key: string) returns (cell: Cell?<Binding>, ghost at: nat)
      requires Valid()
      ensures at <= |spine| && cell == At(spine, at)
      ensures cell != null ==> cell.data.key == key
      ensures forall j :: 0 <= j < at ==> bindings[j].key != key
    {
      cell, at := head, 0;
      while cell != null && cell.data.key != key
        invariant at <= |spine| && cell == At(spine, at)
        invariant forall j :: 0 <= j < at ==> bindings[j].key != key
        decreases |spine| - at
      {
        cell, at := cell.next, at + 1;
      }
    }

    method GetVariable(key: string) returns (value: Option<string>)
      requires Valid()
      ensures value == Lookup(Env(), key)
    {
      ghost var at;
      var cell;
      cell, at := FindCell(key);
      EnvKeys(bindings, key);
      if cell == null {
        value := None;
      } else {
        EnvAt(bindings, at);
        value := Some(cell.data.value);
      }
    }

    /** A known variable: one cell's value changes. */
    method Overwrite(cell: Cell<Binding>, ghost at: nat, value: string)
      requires Chain(head, spine, bindings) && at < |spine| && spine[at] == cell
      modifies this`bindings, cell
      ensures Chain(head, spine, bindings)
      ensures bindings == old(bindings)[at := Binding(old(bindings)[at].key, value)]
    {
      cell.data := Binding(cell.data.key, value);
      bindings := bindings[at := Binding(bindings[at].key, value)];
    }

    /** A new variable: one cell more, in front. */
    method PushFront(key: string, value: string)
      requires Chain(head, spine, bindings)
      modifies this
      ensures Chain(head, spine, bindings) && bindings == [Binding(key, value)] + old(bindings)
      ensures |spine| == |old(spine)| + 1 && spine[1..] == old(spine)
      ensures repr == old(repr) + {spine[0]} && fresh(spine[0])
    {
      var added := new Cell(Binding(key, value), head);
      Prepended(added, head, spine, bindings);
      head, spine, repr := added, [added] + spine, repr + {added};
      bindings := [Binding(key, value)] + bindings;
    }

    /** The part of `set_variable` that changes the list. */
    method Put(key: string, value: string)
      requires Valid()
      modifies this, repr
      ensures Valid() && fresh(repr - old(repr))
      ensures bindings == Assigned(old(bindings), key, value)
    {
      AssignedEnv(bindings, key, value);
      ghost var at;
      var cell;
      cell, at := FindCell(key);
      if cell != null {
        ReplacedAt(bindings, key, value, at);
        Overwrite(cell, at, value);
      } else {
        assert !HasKey(bindings, key);
        PushFront(key, value);
      }
    }

    /** `set_variable`: refuses keys with a space or a tab. */
    method SetVariable(key: string, value: string) returns (ok: bool)
      requires Valid()
      modifies this, repr
      ensures Valid() && fresh(repr - old(repr))
      ensures ok <==> BlankFree(key)
      ensures bindings == if ok then Assigned(old(bindings), key, value) else old(bindings)
      ensures Env() == if ok then old(Env())[key := value] else old(Env())
    {
      for i := 0 to |key|
        invariant forall k :: 0 <= k < i ==> !Blank(key[k])
      {
        if key[i] == ' ' || key[i] == '\t' {
          assert key[i] in key;
          return false;
        }
      }
      AssignedEnv(bindings, key, value);
      Put(key, value);
      ok := true;
    }

    /** `duplicate_variables`: fresh cells, in reverse order. */
    method Duplicate() returns (copy: Cell?<Binding>, ghost cells: seq<Cell<Binding>>)
      requires Valid()
      ensures Chain(copy, cells, Reversed(bindings))
      ensures forall c :: c in cells ==> fresh(c)
    {
      copy, cells := null, [];
      var current := head;
      ghost var at, items: seq<Binding> := 0, [];
      assert Reversed(bindings[0..]) + items == Reversed(bindings) by { assert bindings[0..] == bindings; }
      while current != null
        invariant at <= |spine| && current == At(spine, at)
        invariant Chain(copy, cells, items) && forall c :: c in cells ==> fresh(c)
        invariant Reversed(bindings[at..]) + items == Reversed(bindings)
        decreases |spine| - at
      {
        ReversedStep(bindings, at, items);
        var cell := new Cell(current.data, copy);
        Prepended(cell, copy, cells, items);
        items := [current.data] + items;
        copy, cells := cell, [cell] + cells;
        current, at := current.next, at + 1;
      }
      assert bindings[at..] == [] && [] + items == items;
    }

    /** `set_variable_list`. */
    method Replace(list: Cell?<Binding>, ghost cells: seq<Cell<Binding>>, ghost items: seq<Binding>)
      requires Chain(list, cells, items) && UniqueKeys(items)
      modifies this
      ensures Valid() && bindings == items && head == list && repr == set c | c in cells
    {
      head, spine, bindings, repr := list, cells, items, set c | c in cells;
    }
  }

  predicate BlankFree(key: string) {
    forall c :: c in key ==> !Blank(c)
  }

  lemma ReversedStep(bs: seq<Binding>, at: nat, done: seq<Binding>)
    requires at < |bs|
    ensures Reversed(bs[at..]) + done == Reversed(bs[at + 1..]) + ([bs[at]] + done)
  {
    assert bs[at..][1..] == bs[at + 1..];
  }
}
