/**
 The code fences around a plan in a model's answer: searching for them, cutting a block out
 between them, and removing them from a block.
 */
module Fences {
  import opened Common

  const FENCE: string := "```"
  const JSON_FENCE: string := "```json"

  /** The first occurrence of `p`. */
  function Find(s: string, p: string): (i: Option<nat>)
    ensures i.Some? ==> i.value + |p| <= |s|
  {
    if p <= s then Some(0)
    else if s == "" then None
    else
      var i := Find(s[1..], p);
      if i.None? then None else Some(i.value + 1)
  }

  predicate Contains(s: string, p: string) {
    Find(s, p).Some?
  }

  predicate NoFence(s: string) {
    !Contains(s, FENCE)
  }

  /** A match that starts with `open` and ends with the next `close`, and what is between. */
  datatype Block = Block(whole: string, inside: string)

  function Between(s: string, open: string, close: string): Option<Block> {
    var i := Find(s, open);
    if i.None? then None
    else
      var rest := s[i.value + |open|..];
      var j := Find(rest, close);
      if j.None? then None
      else Some(Block(open + rest[..j.value] + close, rest[..j.value]))
  }

  /** `replace(/```json|```/g, '')` */
  function RemoveFences(s: string): string
    decreases |s|
  {
    if s == "" then ""
    else if JSON_FENCE <= s then RemoveFences(s[7..])
    else if FENCE <= s then RemoveFences(s[3..])
    else [s[0]] + RemoveFences(s[1..])
  }

  // ---------- where a fence is ----------

  lemma StartsWithFence(s: string)
    ensures FENCE <= s <==> |s| >= 3 && s[0] == s[1] == s[2] == '`'
  {
    assert FENCE == ['`', '`', '`'];
    if |s| >= 3 && s[0] == s[1] == s[2] == '`' {
      assert s[..3] == FENCE;
    }
  }

  lemma NoFenceTail(s: string)
    requires s != ""
    ensures NoFence(s) <==> !(FENCE <= s) && NoFence(s[1..])
  {}

  /** Text pieces that neither hold a fence nor can begin one with what follows. */
  ghost predicate Smooth(a: string) {
    NoFence(a) && (a != "" ==> a[|a| - 1] != '`')
  }

  lemma SmoothTail(a: string)
    requires Smooth(a) && a != ""
    ensures Smooth(a[1..])
  {
    NoFenceTail(a);
  }

  lemma NoFenceAcross(a: string, s: string)
    requires Smooth(a) && a != ""
    ensures !(FENCE <= a + s)
  {
    NoFenceTail(a);
    StartsWithFence(a);
    StartsWithFence(a + s);
    if |a| <= 2 {
      assert (a + s)[|a| - 1] == a[|a| - 1];
    } else {
      assert (a + s)[0] == a[0] && (a + s)[1] == a[1] && (a + s)[2] == a[2];
    }
  }

  lemma {:induction false} FenceAfterSmooth(a: string, s: string)
    requires Smooth(a)
    ensures Find(a + s, FENCE) == if Find(s, FENCE).None? then None else Some(|a| + Find(s, FENCE).value)
    decreases |a|
  {
    if a == "" {
      assert a + s == s;
    } else {
      NoFenceAcross(a, s);
      SmoothTail(a);
      assert (a + s)[1..] == a[1..] + s;
      FenceAfterSmooth(a[1..], s);
    }
  }

  lemma SmoothConcat(a: string, b: string)
    requires Smooth(a) && Smooth(b)
    ensures Smooth(a + b)
  {
    FenceAfterSmooth(a, b);
  }

  lemma {:induction false} PlainIsSmooth(a: string)
    requires '`' !in a
    ensures Smooth(a)
    decreases |a|
  {
    StartsWithFence(a);
    if a != "" {
      PlainIsSmooth(a[1..]);
      NoFenceTail(a);
    }
  }

  /** The fence opening a block is found behind any text without one. */
  lemma {:induction false} OpenerFound(a: string, s: string)
    requires !Contains(a, JSON_FENCE)
    ensures Find(a + (JSON_FENCE + s), JSON_FENCE) == Some(|a|)
    decreases |a|
  {
    var t := a + (JSON_FENCE + s);
    if a == "" {
      assert t == JSON_FENCE + s;
    } else {
      NoOpenerAcross(a, s);
      assert t[1..] == a[1..] + (JSON_FENCE + s);
      OpenerFound(a[1..], s);
    }
  }

  lemma NoOpenerAcross(a: string, s: string)
    requires a != "" && !(JSON_FENCE <= a)
    ensures !(JSON_FENCE <= a + (JSON_FENCE + s))
  {
    var j, t := JSON_FENCE, a + (JSON_FENCE + s);
    assert j == ['`', '`', '`', 'j', 's', 'o', 'n'];
    if |a| >= 7 {
      assert t[..7] == a[..7];
    } else if |a| <= 3 {
      assert t[3] == j[3 - |a|];
    } else {
      assert t[|a|] == j[0];
    }
  }

  lemma JsonFenceIsFence(s: string)
    requires JSON_FENCE <= s
    ensures FENCE <= s
  {
    assert JSON_FENCE == FENCE + "json";
  }

  lemma {:induction false} NothingToRemove(s: string)
    requires NoFence(s)
    ensures RemoveFences(s) == s
    decreases |s|
  {
    if s != "" {
      NoFenceTail(s);
      if JSON_FENCE <= s {
        JsonFenceIsFence(s);
      }
      NothingToRemove(s[1..]);
    }
  }

  lemma {:induction false} SmoothStays(a: string, s: string)
    requires Smooth(a)
    ensures RemoveFences(a + s) == a + RemoveFences(s)
    decreases |a|
  {
    if a == "" {
      assert a + s == s;
    } else {
      var c, b := a[0], a[1..];
      assert RemoveFences(a + s) == [c] + RemoveFences(b + s) by {
        NoFenceAcross(a, s);
        NothingRemovedFirst(a + s);
        assert (a + s)[1..] == b + s;
      }
      assert RemoveFences(b + s) == b + RemoveFences(s) by {
        SmoothTail(a);
        SmoothStays(b, s);
      }
      Associate([c], b, RemoveFences(s));
    }
  }

  /** Only the fence goes, and the text on both sides stays. */
  lemma OnlyFenceRemoved(a: string, s: string)
    requires Smooth(a)
    ensures !("json" <= s) ==> RemoveFences(a + (FENCE + s)) == a + RemoveFences(s)
    ensures RemoveFences(a + (JSON_FENCE + s)) == a + RemoveFences(s)
  {
    SmoothStays(a, FENCE + s);
    SmoothStays(a, JSON_FENCE + s);
    FenceFirst(s);
  }

  lemma NothingRemovedFirst(s: string)
    requires s != "" && !(FENCE <= s)
    ensures RemoveFences(s) == [s[0]] + RemoveFences(s[1..])
  {
    if JSON_FENCE <= s {
      JsonFenceIsFence(s);
    }
  }

  lemma FenceFirst(s: string)
    ensures !("json" <= s) ==> RemoveFences(FENCE + s) == RemoveFences(s)
    ensures RemoveFences(JSON_FENCE + s) == RemoveFences(s)
  {
    var t, u := FENCE + s, JSON_FENCE + s;
    assert t[3..] == s && u[7..] == s;
    assert JSON_FENCE == FENCE + "json";
    if JSON_FENCE <= t {
      assert t[3..7] == "json" == s[..4];
    }
  }

  // ---------- parts of texts ----------

  lemma {:induction false} NoFencePrefix(s: string, n: nat)
    requires NoFence(s) && n <= |s|
    ensures NoFence(s[..n])
    decreases n
  {
    var p := s[..n];
    StartsWithFence(p);
    StartsWithFence(s);
    if n > 0 {
      NoFenceTail(s);
      NoFencePrefix(s[1..], n - 1);
      assert p[1..] == s[1..][..n - 1];
      NoFenceTail(p);
    }
  }

  lemma {:induction false} NoFenceSuffix(s: string, n: nat)
    requires NoFence(s) && n <= |s|
    ensures NoFence(s[n..])
    decreases n
  {
    if n > 0 {
      NoFenceTail(s);
      NoFenceSuffix(s[1..], n - 1);
      assert s[n..] == s[1..][n - 1..];
    }
  }

  lemma NoFenceInside(s: string, i: nat, j: nat)
    requires NoFence(s) && i <= j <= |s|
    ensures NoFence(s[i..j])
  {
    NoFencePrefix(s, j);
    NoFenceSuffix(s[..j], i);
    assert s[i..j] == s[..j][i..];
  }

  /** Removing fences never joins backticks into a new one. */
  lemma {:induction false} RemovalLeavesNone(s: string)
    ensures NoFence(RemoveFences(s))
    ensures !(FENCE <= s) ==> BackticksKept(s, RemoveFences(s))
    decreases |s|
  {
    if s == "" {
    } else if JSON_FENCE <= s {
      JsonFenceIsFence(s);
      RemovalLeavesNone(s[7..]);
    } else if FENCE <= s {
      RemovalLeavesNone(s[3..]);
    } else {
      var r := RemoveFences(s[1..]);
      RemovalLeavesNone(s[1..]);
      StartsWithFence(s);
      StartsWithFence(s[1..]);
      StartsWithFence([s[0]] + r);
      NoFenceTail([s[0]] + r);
      assert ([s[0]] + r)[1..] == r;
    }
  }

  /** The backticks `r` starts with, up to three, are those `s` starts with. */
  ghost predicate BackticksKept(s: string, r: string) {
    && (r != "" && r[0] == '`' ==> s != "" && s[0] == '`')
    && (|r| > 1 && r[0] == r[1] == '`' ==> |s| > 1 && s[0] == s[1] == '`')
    && (|r| > 2 && r[0] == r[1] == r[2] == '`' ==> |s| > 2 && s[0] == s[1] == s[2] == '`')
  }
}
