/** The orders in which libraries are placed, and the stable sort that produces them. */
module LayoutOrder {
  import opened LayoutModel

  /** Text order by character code. */
  predicate TextBelow(a: string, b: string) {
    if b == "" then false
    else if a == "" then true
    else if a[0] != b[0] then a[0] < b[0] else TextBelow(a[1..], b[1..])
  }

  function Rank(name: string): nat {
    if "app" <= name then 0 else if "libtest" <= name then 1 else 2
  }

  predicate NameBelow(a: Shared, b: Shared) {
    if Rank(a.lib.name) != Rank(b.lib.name) then Rank(a.lib.name) < Rank(b.lib.name)
    else TextBelow(a.lib.name, b.lib.name)
  }

  predicate MoreUsed(a: Shared, b: Shared) {
    a.occurrence > b.occurrence
  }

  // ---------- Strict orders ----------

  /** No element is below itself, and what lies between two elements is apart from one of them. */
  ghost predicate StrictOrder(below: (Shared, Shared) -> bool) {
    && (forall a :: !below(a, a))
    && (forall a, b, c :: below(a, c) ==> below(a, b) || below(b, c))
    && (forall a, b, c :: below(a, b) && below(b, c) ==> below(a, c))
  }

  lemma {:induction false} TextOrder(a: string, b: string, c: string)
    ensures !TextBelow(a, a)
    ensures TextBelow(a, c) ==> TextBelow(a, b) || TextBelow(b, c)
    ensures TextBelow(a, b) && TextBelow(b, c) ==> TextBelow(a, c)
    decreases |a| + |b| + |c|
  {
    if a != "" {
      TextOrder(a[1..], if b != "" then b[1..] else "", if c != "" then c[1..] else "");
    }
  }

  lemma NamesAreOrdered()
    ensures StrictOrder(NameBelow) && StrictOrder(MoreUsed)
  {
    forall a: Shared, b: Shared, c: Shared
      ensures !NameBelow(a, a)
      ensures NameBelow(a, c) ==> NameBelow(a, b) || NameBelow(b, c)
      ensures NameBelow(a, b) && NameBelow(b, c) ==> NameBelow(a, c)
    {
      TextOrder(a.lib.name, b.lib.name, c.lib.name);
    }
  }

  // ---------- Sorting ----------

  ghost predicate SortedBy(s: seq<Shared>, below: (Shared, Shared) -> bool) {
    forall i, j :: 0 <= i < j < |s| ==> !below(s[j], s[i])
  }

  /** The elements that the order does not tell from `x`, in the order in which they stand. */
  function Tied(s: seq<Shared>, x: Shared, below: (Shared, Shared) -> bool): seq<Shared> {
    if s == [] then []
    else
      var last := s[|s| - 1];
      Tied(s[..|s| - 1], x, below) + if !below(x, last) && !below(last, x) then [last] else []
  }

  /** Puts `x` after everything it is not strictly below. */
  function Insert(s: seq<Shared>, x: Shared, below: (Shared, Shared) -> bool): (r: seq<Shared>)
    ensures multiset(r) == multiset(s) + multiset{x}
  {
    if s != [] && below(x, s[|s| - 1]) then
      assert s == s[..|s| - 1] + [s[|s| - 1]];
      Insert(s[..|s| - 1], x, below) + [s[|s| - 1]]
    else s + [x]
  }

  /** The laws of a strict order at three elements. */
  lemma Between(below: (Shared, Shared) -> bool, x: Shared, y: Shared, z: Shared)
    requires StrictOrder(below)
    ensures !below(x, x)
    ensures below(x, z) ==> below(x, y) || below(y, z)
    ensures below(x, y) && below(y, z) ==> below(x, z)
  {
  }

  lemma {:induction false} InsertSorted(s: seq<Shared>, x: Shared, below: (Shared, Shared) -> bool)
    requires StrictOrder(below) && SortedBy(s, below)
    ensures SortedBy(Insert(s, x, below), below)
  {
    hide StrictOrder;
    if s != [] && below(x, s[|s| - 1]) {
      var front, last := s[..|s| - 1], s[|s| - 1];
      InsertSorted(front, x, below);
      var r := Insert(front, x, below);
      Between(below, x, last, x);
      forall i | 0 <= i < |r|
        ensures !below(last, r[i])
      {
        assert r[i] in multiset(r);
        assert r[i] == x || r[i] in front;
      }
    } else if s != [] {
      forall i | 0 <= i < |s|
        ensures !below(x, s[i])
      {
        Between(below, x, s[|s| - 1], s[i]);
      }
    }
  }

  lemma TiedSnoc(s: seq<Shared>, y: Shared, x: Shared, below: (Shared, Shared) -> bool)
    ensures Tied(s + [y], x, below) == Tied(s, x, below) + if !below(x, y) && !below(y, x) then [y] else []
  {
    assert (s + [y])[..|s|] == s;
  }

  lemma {:induction false} InsertStable(s: seq<Shared>, y: Shared, x: Shared, below: (Shared, Shared) -> bool)
    requires StrictOrder(below)
    ensures Tied(Insert(s, y, below), x, below) == Tied(s + [y], x, below)
  {
    hide StrictOrder, Tied;
    TiedSnoc(s, y, x, below);
    if s != [] && below(y, s[|s| - 1]) {
      var front, last := s[..|s| - 1], s[|s| - 1];
      InsertStable(front, y, x, below);
      TiedSnoc(front, y, x, below);
      TiedSnoc(Insert(front, y, below), last, x, below);
      assert s == front + [last];
      TiedSnoc(front, last, x, below);
      Between(below, y, x, last);
    }
  }

  /** A permutation in order, with elements that the order does not tell apart left in the order they had. */
  method Sort(s: seq<Shared>, below: (Shared, Shared) -> bool) returns (r: seq<Shared>)
    requires StrictOrder(below)
    ensures multiset(r) == multiset(s) && SortedBy(r, below)
    ensures forall x {:trigger Tied(r, x, below)} :: Tied(r, x, below) == Tied(s, x, below)
  {
    hide StrictOrder, SortedBy, Insert, Tied;
    r := [];
    Nothing(below);
    for i := 0 to |s|
      invariant multiset(r) == multiset(s[..i]) && SortedBy(r, below)
      invariant forall x {:trigger Tied(r, x, below)} :: Tied(r, x, below) == Tied(s[..i], x, below)
    {
      assert s[..i + 1] == s[..i] + [s[i]];
      InsertSorted(r, s[i], below);
      forall x {:trigger Tied(Insert(r, s[i], below), x, below)}
        ensures Tied(Insert(r, s[i], below), x, below) == Tied(s[..i + 1], x, below)
      {
        InsertStable(r, s[i], x, below);
        TiedSnoc(r, s[i], x, below);
        TiedSnoc(s[..i], s[i], x, below);
      }
      r := Insert(r, s[i], below);
    }
    assert s[..|s|] == s;
  }

  lemma Nothing(below: (Shared, Shared) -> bool)
    ensures SortedBy([], below)
  {
  }

  // ---------- What the orders mean ----------

  /** The first character in which two names differ decides, and a name comes before its extensions. */
  lemma {:induction false} FirstDifference(p: string, a: string, b: string)
    ensures TextBelow(p + a, p + b) <==> TextBelow(a, b)
    ensures a != "" && b != "" && a[0] != b[0] ==> (TextBelow(p + a, p + b) <==> a[0] < b[0])
    ensures TextBelow(p, p + a) <==> a != ""
  {
    if p == "" {
      assert p + a == a && p + b == b;
    } else {
      FirstDifference(p[1..], a, b);
      assert (p + a)[1..] == p[1..] + a && (p + b)[1..] == p[1..] + b;
    }
  }

  /** Applications come before test libraries, these before all others; each group is in text order. */
  lemma ApplicationsFirst(s: seq<Shared>, i: nat, j: nat)
    requires SortedBy(s, NameBelow) && i < j < |s|
    ensures "app" <= s[j].lib.name ==> "app" <= s[i].lib.name
    ensures "libtest" <= s[j].lib.name ==> "app" <= s[i].lib.name || "libtest" <= s[i].lib.name
    ensures ("app" <= s[i].lib.name <==> "app" <= s[j].lib.name)
            && ("libtest" <= s[i].lib.name <==> "libtest" <= s[j].lib.name)
            ==> !TextBelow(s[j].lib.name, s[i].lib.name)
  {
    assert !NameBelow(s[j], s[i]);
  }

  /** Libraries of more unikernels come first. */
  lemma MostUsedFirst(s: seq<Shared>, i: nat, j: nat)
    requires SortedBy(s, MoreUsed) && i < j < |s|
    ensures s[j].occurrence <= s[i].occurrence
  {
    assert !MoreUsed(s[j], s[i]);
  }
}
