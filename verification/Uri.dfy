/** Turning a request path into a JSON pointer: runs of slashes become one slash. */
module Uri {
  import opened Common

  const SLASH: byte := 47
  const U32_MAX: nat := TWO_32 - 1

  predicate StartsDouble(s: seq<byte>) {
    |s| >= 2 && s[0] == SLASH && s[1] == SLASH
  }

  /** One pass over the text: each "//" found from the left, without overlap, becomes "/". */
  function Replace(s: seq<byte>): seq<byte> {
    if s == [] then [] else if StartsDouble(s) then [SLASH] + Replace(s[2..]) else [s[0]] + Replace(s[1..])
  }

  /** Every maximal run of slashes becomes one. */
  function Collapse(s: seq<byte>): seq<byte> {
    if s == [] then [] else if StartsDouble(s) then Collapse(s[1..]) else [s[0]] + Collapse(s[1..])
  }

  predicate HasDouble(s: seq<byte>) {
    exists i :: 0 < i < |s| && s[i - 1] == SLASH && s[i] == SLASH
  }

  lemma DoubleBehind(s: seq<byte>)
    requires |s| > 0
    ensures HasDouble(s) <==> StartsDouble(s) || HasDouble(s[1..])
  {
    if HasDouble(s) && !StartsDouble(s) {
      var i :| 0 < i < |s| && s[i - 1] == SLASH && s[i] == SLASH;
      assert s[1..][i - 2] == SLASH && s[1..][i - 1] == SLASH;
    }
    if HasDouble(s[1..]) {
      var i :| 0 < i < |s| - 1 && s[1..][i - 1] == SLASH && s[1..][i] == SLASH;
      assert s[i] == SLASH && s[i + 1] == SLASH;
    }
  }

  /** A pass shortens the text exactly when it finds something, and otherwise changes nothing. */
  lemma {:induction false} ReplaceShortens(s: seq<byte>)
    ensures |Replace(s)| <= |s|
    ensures HasDouble(s) <==> |Replace(s)| < |s|
    ensures !HasDouble(s) ==> Replace(s) == s
    decreases |s|
  {
    if s != [] {
      DoubleBehind(s);
      hide HasDouble;
      if StartsDouble(s) {
        ReplaceShortens(s[2..]);
      } else {
        ReplaceShortens(s[1..]);
        assert s == [s[0]] + s[1..];
      }
    } else {
      assert !HasDouble(s);
    }
  }

  lemma {:induction false} CollapseFixed(s: seq<byte>)
    requires !HasDouble(s)
    ensures Collapse(s) == s
  {
    if s != [] {
      DoubleBehind(s);
      CollapseFixed(s[1..]);
    }
  }

  /** The first character decides how a prefix "/" collapses. */
  lemma CollapseSlash(s: seq<byte>)
    ensures Collapse([SLASH] + s) == if s != [] && s[0] == SLASH then Collapse(s) else [SLASH] + Collapse(s)
  {
    assert ([SLASH] + s)[1..] == s;
  }

  lemma CollapseOther(c: byte, s: seq<byte>)
    requires c != SLASH
    ensures Collapse([c] + s) == [c] + Collapse(s)
  {
    assert ([c] + s)[1..] == s;
  }

  lemma ReplaceHead(s: seq<byte>)
    requires s != []
    ensures Replace(s) != [] && Replace(s)[0] == s[0]
  {
  }

  /** A pass does not change what the text collapses to. */
  lemma {:induction false} ReplaceKeepsCollapse(s: seq<byte>)
    ensures Collapse(Replace(s)) == Collapse(s)
    decreases |s|
  {
    if s == [] {
    } else if StartsDouble(s) {
      var rest := s[2..];
      ReplaceKeepsCollapse(rest);
      CollapseSlash(Replace(rest));
      assert s[1..] == [SLASH] + rest;
      CollapseSlash(rest);
      if rest != [] { ReplaceHead(rest); }
    } else {
      var rest := s[1..];
      ReplaceKeepsCollapse(rest);
      assert s == [s[0]] + rest;
      if rest != [] { ReplaceHead(rest); }
      if s[0] == SLASH {
        CollapseSlash(Replace(rest));
        CollapseSlash(rest);
      } else {
        CollapseOther(s[0], Replace(rest));
        CollapseOther(s[0], rest);
      }
    }
  }

  lemma {:induction false} CollapsedHasNone(s: seq<byte>)
    ensures !HasDouble(Collapse(s))
    ensures s != [] ==> Collapse(s) != [] && Collapse(s)[0] == s[0] && Collapse(s)[|Collapse(s)| - 1] == s[|s| - 1]
  {
    if s != [] {
      CollapsedHasNone(s[1..]);
      DoubleBehind(Collapse(s));
      if !StartsDouble(s) {
        assert Collapse(s)[1..] == Collapse(s[1..]);
      }
    }
  }

  // ---------- Segments ----------

  /** The non-empty stretches between slashes, with `open` the one being read. */
  function Segments(open: seq<byte>, s: seq<byte>): seq<seq<byte>>
    decreases |s|
  {
    if s == [] then Closed(open)
    else if s[0] == SLASH then Closed(open) + Segments([], s[1..])
    else Segments(open + [s[0]], s[1..])
  }

  function Closed(open: seq<byte>): seq<seq<byte>> {
    if open == [] then [] else [open]
  }

  lemma {:induction false} CollapseKeepsSegments(open: seq<byte>, s: seq<byte>)
    ensures Segments(open, Collapse(s)) == Segments(open, s)
    decreases |s|
  {
    if s != [] {
      var rest := s[1..];
      if StartsDouble(s) {
        CollapseKeepsSegments(open, rest);
        assert Segments([], rest) == Closed([]) + Segments([], rest[1..]);
      } else {
        assert Collapse(s)[1..] == Collapse(rest);
        CollapseKeepsSegments(if s[0] == SLASH then [] else open + [s[0]], rest);
      }
    }
  }

  // ---------- The loop ----------

  /**
    Repeats the pass while it shortens. The result is the collapsed text exactly for paths below the first bound and
    for paths that need no change; the segments and their order never change.
    */
  method SanitizeUri(uri: seq<byte>) returns (r: seq<byte>)
    ensures r == Collapse(uri) <==> |uri| < 0xffff_ffff || !HasDouble(uri)
    ensures |uri| >= 0xffff_ffff ==> r == uri
    ensures |uri| < 0xffff_ffff ==> forall i :: 0 < i < |r| ==> !(r[i - 1] == 0x2f && r[i] == 0x2f)
    ensures uri != [] ==> r != [] && r[0] == uri[0] && r[|r| - 1] == uri[|uri| - 1]
    ensures Segments([], r) == Segments([], uri)
  {
    r := uri;
    var len := U32_MAX;
    while |r| < len
      invariant Collapse(r) == Collapse(uri) && |r| <= |uri|
      invariant (len == U32_MAX && r == uri) || (|r| <= len && (|r| == len ==> !HasDouble(r)))
      invariant |uri| >= U32_MAX ==> len == U32_MAX && r == uri
      decreases len
    {
      len := |r|;
      ReplaceShortens(r);
      ReplaceKeepsCollapse(r);
      r := Replace(r);
    }
    CollapsedHasNone(uri);
    CollapseKeepsSegments([], uri);
    if |uri| < U32_MAX || !HasDouble(uri) {
      CollapseFixed(r);
    }
  }
}
