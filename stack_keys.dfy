/**
 * The x values `getStackPoints` emits: the keys of the stack whose total is
 * not null, sorted numerically.
 */
module StackKeys {
  import opened AreaTypes

  /** The stack keys whose total is not null. */
  function LiveKeys(stack: Stack): set<int> {
    set x | x in stack && stack[x].total.Some?
  }

  predicate NoDuplicates(s: seq<int>) {
    forall i, j :: 0 <= i < j < |s| ==> s[i] != s[j]
  }

  predicate Ascending(s: seq<int>) {
    forall i, j :: 0 <= i < j < |s| ==> s[i] <= s[j]
  }

  predicate StrictlyAscending(s: seq<int>) {
    forall i, j :: 0 <= i < j < |s| ==> s[i] < s[j]
  }

  lemma NonEmptyHasElement(s: set<int>)
    requires s != {}
    ensures exists x :: x in s
  {
    if forall x :: x !in s {
      assert false;
    }
  }

  /** The `objectEach` loop: push every key whose total is not null. The
      enumeration order of the keys is left open. */
  method CollectKeys(stack: Stack) returns (keys: seq<int>)
    ensures NoDuplicates(keys)
    ensures forall x :: x in keys <==> x in LiveKeys(stack)
  {
    keys := [];
    var todo := stack.Keys;
    while todo != {}
      invariant todo <= stack.Keys
      invariant NoDuplicates(keys)
      invariant forall x :: x in keys <==> x in LiveKeys(stack) && x !in todo
      decreases |todo|
    {
      NonEmptyHasElement(todo);
      var x :| x in todo;
      if stack[x].total != None {
        keys := keys + [x];
      }
      todo := todo - {x};
    }
  }

  function Insert(x: int, s: seq<int>): (r: seq<int>)
    requires Ascending(s)
    ensures |r| == |s| + 1
    ensures r[0] == x || (s != [] && r[0] == s[0])
    ensures forall y :: y in r <==> y == x || y in s
    ensures Ascending(r)
  {
    if s == [] || x <= s[0] then [x] + s
    else
      var rest := Insert(x, s[1..]);
      assert s == [s[0]] + s[1..];
      [s[0]] + rest
  }

  lemma ConsStrict(a: int, t: seq<int>)
    requires StrictlyAscending(t) && (t != [] ==> a < t[0])
    ensures StrictlyAscending([a] + t)
  {
    forall i, j | 0 <= i < j < |t| + 1
      ensures ([a] + t)[i] < ([a] + t)[j]
    {
      if i == 0 && j > 1 {
        assert t[0] < t[j - 1];
      }
    }
  }

  /** Inserting a new key into a strictly ascending sequence keeps it strictly ascending. */
  lemma {:induction false} InsertKeepsStrict(x: int, s: seq<int>)
    requires StrictlyAscending(s) && x !in s
    ensures StrictlyAscending(Insert(x, s))
  {
    if s != [] && x > s[0] {
      assert s == [s[0]] + s[1..];
      InsertKeepsStrict(x, s[1..]);
      ConsStrict(s[0], Insert(x, s[1..]));
    }
  }

  /** Inserting adds exactly one occurrence of the new key. */
  lemma {:induction false} InsertMultiset(x: int, s: seq<int>)
    requires Ascending(s)
    ensures multiset(Insert(x, s)) == multiset(s) + multiset{x}
  {
    if s != [] && x > s[0] {
      assert s == [s[0]] + s[1..];
      InsertMultiset(x, s[1..]);
    }
  }

  /** `keys.sort((a, b) => a - b)`: ascending numeric order. */
  function SortNumeric(s: seq<int>): (r: seq<int>)
    ensures |r| == |s|
    ensures forall y :: y in r <==> y in s
    ensures Ascending(r)
    ensures NoDuplicates(s) ==> StrictlyAscending(r)
  {
    if s == [] then []
    else
      var rest := SortNumeric(s[1..]);
      assert s == [s[0]] + s[1..];
      if NoDuplicates(s) then
        assert s[0] !in s[1..];
        InsertKeepsStrict(s[0], rest);
        Insert(s[0], rest)
      else Insert(s[0], rest)
  }

  /** The sort is a permutation of its input. */
  lemma {:induction false} SortIsPermutation(s: seq<int>)
    ensures multiset(SortNumeric(s)) == multiset(s)
  {
    if s != [] {
      assert s == [s[0]] + s[1..];
      SortIsPermutation(s[1..]);
      InsertMultiset(s[0], SortNumeric(s[1..]));
    }
  }

  lemma HeadIn(s: seq<int>)
    requires s != []
    ensures s[0] in s
  {
  }

  /** Two strictly ascending sequences with the same elements are equal. */
  lemma {:induction false} AscendingUnique(a: seq<int>, b: seq<int>)
    requires StrictlyAscending(a) && StrictlyAscending(b)
    requires forall x :: x in a <==> x in b
    ensures a == b
    decreases |a|
  {
    if a == [] {
      if b != [] {
        HeadIn(b);
        assert false;
      }
    } else if b == [] {
      HeadIn(a);
      assert false;
    } else {
      assert a[0] == b[0] by {
        assert a[0] in a && b[0] in b;
      }
      forall x
        ensures x in a[1..] <==> x in b[1..]
      {
        if x in a[1..] { assert x in b; }
        if x in b[1..] { assert x in a; }
      }
      AscendingUnique(a[1..], b[1..]);
      assert a == [a[0]] + a[1..] && b == [b[0]] + b[1..];
    }
  }

  ghost function SeqOfSet(s: set<int>): (r: seq<int>)
    ensures NoDuplicates(r)
    ensures forall x :: x in r <==> x in s
    decreases s
  {
    if s == {} then []
    else
      NonEmptyHasElement(s);
      var x :| x in s;
      [x] + SeqOfSet(s - {x})
  }

  /** The live keys in ascending order: the order `getStackPoints` emits. */
  ghost function OrderedKeys(stack: Stack): (keys: seq<int>)
    ensures StrictlyAscending(keys)
    ensures forall x :: x in keys <==> x in LiveKeys(stack)
  {
    var s := SeqOfSet(LiveKeys(stack));
    SortNumeric(s)
  }

  /** Collecting and sorting, in any enumeration order, gives the ordered keys. */
  lemma SortedCollectedKeys(stack: Stack, collected: seq<int>)
    requires NoDuplicates(collected)
    requires forall x :: x in collected <==> x in LiveKeys(stack)
    ensures SortNumeric(collected) == OrderedKeys(stack)
  {
    AscendingUnique(SortNumeric(collected), OrderedKeys(stack));
  }
}
