/** The undo history of a branch: where it is now, what it can go back to, and what it can go forward to. */
module Histories {
  function Reverse<T>(s: seq<T>): (r: seq<T>)
    ensures |r| == |s|
  {
    if s == [] then [] else Reverse(s[1..]) + [s[0]]
  }

  /** `prev` has the most recent state first, `next` the one to be redone first. */
  datatype Timeline<T> = Timeline(current: T, prev: seq<T>, next: seq<T>) {
    /** All states from the oldest to the newest, whichever of them is the current one. */
    function Whole(): seq<T> {
      Reverse(prev) + [current] + next
    }

    function Push(x: T): Timeline<T> {
      Timeline(x, [current] + prev, [])
    }

    function Back(): Timeline<T>
      requires prev != []
    {
      Timeline(prev[0], prev[1..], [current] + next)
    }

    function Forward(): Timeline<T>
      requires next != []
    {
      Timeline(next[0], [current] + prev, next[1..])
    }
  }

  /** Going back and forward keeps the whole timeline, and undoes each other. */
  lemma BackKeepsAll<T>(t: Timeline<T>)
    requires t.prev != []
    ensures t.Back().Whole() == t.Whole() && |t.Back().prev| == |t.prev| - 1
    ensures t.Back().Forward() == t && t.Whole()[|t.prev| - 1] == t.Back().current
  {
    var b := t.Back();
    assert Reverse(t.prev) == Reverse(b.prev) + [b.current];
    assert t.Whole() == Reverse(b.prev) + [b.current] + ([t.current] + t.next);
    assert Reverse(t.prev)[|t.prev| - 1] == b.current;
    assert [b.current] + b.prev == t.prev;
  }

  lemma ForwardKeepsAll<T>(t: Timeline<T>)
    requires t.next != []
    ensures t.Forward().Whole() == t.Whole() && t.Forward().Back() == t
  {
    var f := t.Forward();
    assert ([t.current] + t.prev)[1..] == t.prev;
    assert f.Whole() == Reverse(t.prev) + [t.current] + [f.current] + f.next;
    assert [f.current] + f.next == t.next;
  }

  /** A push cuts off what could have been redone, and nothing else. */
  lemma PushCutsRedo<T>(t: Timeline<T>, x: T)
    ensures t.Push(x).Whole() == t.Whole()[..|t.prev| + 1] + [x]
    ensures t.Push(x).prev != [] && t.Push(x).Back() == Timeline(t.current, t.prev, [x])
  {
    assert t.Whole()[..|t.prev| + 1] == Reverse(t.prev) + [t.current];
    assert Reverse([t.current] + t.prev) == Reverse(t.prev) + [t.current];
    assert t.Push(x).Whole() == Reverse(t.prev) + [t.current] + [x] + [];
  }

  class History<T> {
    var current: T
    var prevs: seq<T>
    var nexts: seq<T>

    function Value(): Timeline<T>
      reads this
    {
      Timeline(current, prevs, nexts)
    }

    constructor (t: Timeline<T>)
      ensures Value() == t
    {
      current, prevs, nexts := t.current, t.prev, t.next;
    }

    method Push(x: T)
      modifies this
      ensures Value() == old(Value()).Push(x)
    {
      nexts := [];
      prevs := [current] + prevs;
      current := x;
    }

    predicate Begin()
      reads this
    {
      |prevs| == 0
    }

    predicate End()
      reads this
    {
      |nexts| == 0
    }

    method Prev()
      requires !Begin()
      modifies this
      ensures Value() == old(Value()).Back()
    {
      nexts := [current] + nexts;
      current := prevs[0];
      prevs := prevs[1..];
    }

    method Next()
      requires !End()
      modifies this
      ensures Value() == old(Value()).Forward()
    {
      prevs := [current] + prevs;
      current := nexts[0];
      nexts := nexts[1..];
    }

    /** What going back would make current. */
    function PrevPeek(): (x: T)
      requires !Begin()
      reads this
      ensures x == Value().Back().current
    {
      prevs[0]
    }

    function NextPeek(): (x: T)
      requires !End()
      reads this
      ensures x == Value().Forward().current
    {
      nexts[0]
    }
  }
}
