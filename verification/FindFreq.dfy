/** The frequency in a CPU brand string: a state machine against the expression [0-9]+\.[0-9]+[MGT]Hz. */
module FindFreq {
  import opened Common

  predicate Digit(c: byte) {
    48 <= c <= 57
  }

  const POINT: byte := 46
  const LETTER_H: byte := 72
  const LETTER_Z: byte := 122

  predicate Unit(c: byte) {
    c == 77 || c == 71 || c == 84
  }

  /** The classes in characters. */
  lemma Characters(c: byte)
    ensures
      var ch := (c as int) as char;
      && (Digit(c) <==> '0' <= ch <= '9') && (Unit(c) <==> ch in {'M', 'G', 'T'})
      && (c == POINT <==> ch == '.') && (c == LETTER_H <==> ch == 'H') && (c == LETTER_Z <==> ch == 'z')
  {
  }

  predicate Digits(s: seq<byte>, i: int, k: int) {
    0 <= i <= k <= |s| && forall j :: i <= j < k ==> Digit(s[j])
  }

  /** The expression matches from `i` to `q + 3`: digits, a point at `p`, digits, a unit at `q`, "Hz". */
  predicate Matches(s: seq<byte>, i: int, p: int, q: int) {
    && 0 <= i < p && p + 1 < q && q + 3 <= |s|
    && Digits(s, i, p) && s[p] == POINT && Digits(s, p + 1, q)
    && Unit(s[q]) && s[q + 1] == LETTER_H && s[q + 2] == LETTER_Z
  }

  datatype Stage = Initial | IntPart | DecimalPoint | DecimalPart | UnitSize | FoundH

  /** Digits from `start`, then a point just before `decimal`. */
  predicate IntegerPart(s: seq<byte>, start: nat, decimal: nat) {
    start < decimal - 1 < |s| && Digits(s, start, decimal - 1) && s[decimal - 1] == POINT
  }

  /** What the machine has recognised at the end of `s[..i]`, from `start`, with the decimal part from `decimal`. */
  predicate Recognised(s: seq<byte>, i: nat, stage: Stage, start: nat, decimal: nat) {
    i <= |s| &&
    match stage
    case Initial => true
    case IntPart => start < i && Digits(s, start, i)
    case DecimalPoint => IntegerPart(s, start, i)
    case DecimalPart => IntegerPart(s, start, decimal) && decimal < i && Digits(s, decimal, i)
    case UnitSize => IntegerPart(s, start, decimal) && decimal < i - 1 && Digits(s, decimal, i - 1) && Unit(s[i - 1])
    case FoundH =>
      IntegerPart(s, start, decimal) && decimal < i - 2 && Digits(s, decimal, i - 2) && Unit(s[i - 2])
        && s[i - 1] == LETTER_H
  }

  /** Where the earliest match can still begin. */
  function Earliest(stage: Stage, i: nat, start: nat): nat {
    if stage == Initial then i else start
  }

  ghost predicate NoneBefore(s: seq<byte>, k: nat) {
    forall a, p, q {:trigger Matches(s, a, p, q)} :: Matches(s, a, p, q) ==> k <= a
  }

  datatype State = State(stage: Stage, start: nat, decimal: nat)

  /** One character; the machine stops on the final "z" of a match. */
  function Next(t: State, i: nat, c: byte): Option<State> {
    match t.stage
    case Initial => Some(if Digit(c) then State(IntPart, i, t.decimal) else t)
    case IntPart => Some(if Digit(c) then t else if c == POINT then t.(stage := DecimalPoint) else t.(stage := Initial))
    case DecimalPoint => Some(if Digit(c) then State(DecimalPart, t.start, i) else t.(stage := Initial))
    case DecimalPart =>
      Some(if Digit(c) then t
           else if c == POINT then State(DecimalPoint, t.decimal, t.decimal)
           else if Unit(c) then t.(stage := UnitSize) else t.(stage := Initial))
    case UnitSize =>
      Some(if c == LETTER_H then t.(stage := FoundH) else if Digit(c) then State(IntPart, i, t.decimal)
        else t.(stage := Initial))
    case FoundH =>
      if c == LETTER_Z then None else Some(if Digit(c) then State(IntPart, i, t.decimal) else t.(stage := Initial))
  }

  lemma RunEnds(s: seq<byte>, a: int, p: int, lo: int, hi: int)
    requires Digits(s, lo, hi) && lo <= a < hi && hi < |s| && !Digit(s[hi])
    requires a < p < |s| && Digits(s, a, p) && !Digit(s[p])
    ensures p == hi
  {
  }

  ghost predicate Good(s: seq<byte>, i: nat, t: State) {
    Recognised(s, i, t.stage, t.start, t.decimal) && NoneBefore(s, Earliest(t.stage, i, t.start))
  }

  /** A match that begins in the recognised text reads it as the machine does. */
  lemma Follows(s: seq<byte>, i: nat, t: State, a: int, p: int, q: int)
    requires Good(s, i, t) && i < |s| && Matches(s, a, p, q) && a < i
    ensures t.stage != Initial && t.start <= a
    ensures t.stage == IntPart && !Digit(s[i]) ==> p == i
    ensures t.stage == DecimalPoint ==> p == i - 1
    ensures t.stage == DecimalPart ==> a < t.decimal - 1 == p || t.decimal <= a
    ensures t.stage == DecimalPart && !Digit(s[i]) ==> q == i || p == i
    ensures t.stage == UnitSize ==> q == i - 1
    ensures t.stage == FoundH ==> q == i - 2
  {
    assert Earliest(t.stage, i, t.start) <= a;
    match t.stage {
      case Initial =>
      case IntPart =>
        if !Digit(s[i]) { RunEnds(s, a, p, t.start, i); }
      case DecimalPoint =>
        if a < i - 1 { RunEnds(s, a, p, t.start, i - 1); }
      case DecimalPart =>
        if a < t.decimal - 1 {
          RunEnds(s, a, p, t.start, t.decimal - 1);
          if !Digit(s[i]) { RunEnds(s, t.decimal, q, t.decimal, i); }
        } else {
          assert a != t.decimal - 1;
          if !Digit(s[i]) { RunEnds(s, a, p, t.decimal, i); }
        }
      case UnitSize => Whole(s, t, i - 1, a, p, q);
      case FoundH => Whole(s, t, i - 2, a, p, q);
    }
  }

  lemma Whole(s: seq<byte>, t: State, u: int, a: int, p: int, q: int)
    requires 0 <= t.start < t.decimal - 1 && t.decimal < u < |s| && Unit(s[u])
    requires Digits(s, t.start, t.decimal - 1) && s[t.decimal - 1] == POINT && Digits(s, t.decimal, u)
    requires Matches(s, a, p, q) && t.start <= a <= u + 1 && (u + 1 < |s| && a == u + 1 ==> !Digit(s[u + 1]))
    ensures q == u && p == t.decimal - 1
  {
    assert a != u && a != t.decimal - 1 && a != u + 1;
    if a < t.decimal - 1 {
      RunEnds(s, a, p, t.start, t.decimal - 1);
      RunEnds(s, t.decimal, q, t.decimal, u);
    } else {
      RunEnds(s, a, p, t.decimal, u);
    }
  }

  lemma Advance(s: seq<byte>, i: nat, t: State)
    requires Good(s, i, t) && i < |s| && Next(t, i, s[i]).Some?
    ensures Good(s, i + 1, Next(t, i, s[i]).value)
  {
    var n := Next(t, i, s[i]).value;
    forall a, p, q {:trigger Matches(s, a, p, q)} | Matches(s, a, p, q)
      ensures Earliest(n.stage, i + 1, n.start) <= a
    {
      if a < i {
        Follows(s, i, t, a, p, q);
      } else {
        assert a == i ==> Digit(s[i]);
      }
    }
  }

  /** The machine stops with a match that begins no later than any other. */
  lemma Stops(s: seq<byte>, i: nat, t: State)
    requires Good(s, i, t) && i < |s| && Next(t, i, s[i]).None?
    ensures Matches(s, t.start, t.decimal - 1, i - 2) && NoneBefore(s, t.start)
  {
  }

  /** At the end of the text nothing was missed. */
  lemma Exhausted(s: seq<byte>, t: State, a: int, p: int, q: int)
    requires Good(s, |s|, t)
    ensures !Matches(s, a, p, q)
  {
    if Matches(s, a, p, q) {
      assert Earliest(t.stage, |s|, t.start) <= a;
      match t.stage {
        case Initial => assert false;
        case IntPart => assert false;
        case DecimalPoint => assert false;
        case DecimalPart =>
          if a < t.decimal - 1 { RunEnds(s, a, p, t.start, t.decimal - 1); }
          assert false;
        case UnitSize => Whole(s, t, |s| - 1, a, p, q); assert false;
        case FoundH => Whole(s, t, |s| - 2, a, p, q); assert false;
      }
    }
  }

  /** Among matches beginning no earlier, the unit of this one comes first. */
  lemma FirstUnit(s: seq<byte>, i: int, p: int, q: int, a: int, b: int, c: int)
    requires Matches(s, i, p, q) && Matches(s, a, b, c) && i <= a
    ensures q <= c
  {
  }

  /**
    Finds a frequency exactly when the text contains one, and then the leftmost, with all the digits before its
    point.
   */
  method FindFreq(s: seq<byte>) returns (r: Option<(nat, nat)>)
    ensures r.None? <==> forall a, p, q {:trigger Matches(s, a, p, q)} :: !Matches(s, a, p, q)
    ensures r.Some? ==> r.value.0 < r.value.1 <= |s| && exists p, q :: Matches(s, r.value.0, p, q) && r.value.1 == q + 3
    ensures r.Some? ==> forall a, p, q {:trigger Matches(s, a, p, q)} :: Matches(s, a, p, q) ==>
      r.value.0 <= a && r.value.1 <= q + 3
  {
    hide Matches, Recognised;
    var t := State(Initial, 0, 0);
    Begins(s);
    for i := 0 to |s|
      invariant Good(s, i, t)
    {
      var n := Next(t, i, s[i]);
      if n.None? {
        Stops(s, i, t);
        forall a, p, q {:trigger Matches(s, a, p, q)} | Matches(s, a, p, q)
          ensures i + 1 <= q + 3
        {
          FirstUnit(s, t.start, t.decimal - 1, i - 2, a, p, q);
        }
        Extent(s, t.start, t.decimal - 1, i - 2);
        return Some((t.start, i + 1));
      }
      Advance(s, i, t);
      t := n.value;
    }
    forall a, p, q {:trigger Matches(s, a, p, q)}
      ensures !Matches(s, a, p, q)
    {
      Exhausted(s, t, a, p, q);
    }
    r := None;
  }

  lemma Begins(s: seq<byte>)
    ensures Good(s, 0, State(Initial, 0, 0))
  {
  }

  lemma Extent(s: seq<byte>, i: int, p: int, q: int)
    requires Matches(s, i, p, q)
    ensures 0 <= i < q + 3 <= |s|
  {
  }
}
