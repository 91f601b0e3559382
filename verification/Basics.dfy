/** Small things that several modules share. */
module Basics {

  datatype Option<+T> = None | Some(value: T)

  /** ASCII white space, as Python's `strip` knows it. */
  predicate IsSpace(c: char) { c == ' ' || '\t' <= c <= '\r' || '\U{1c}' <= c <= '\U{1f}' }

  function StripLeft(s: string): string {
    if s != "" && IsSpace(s[0]) then StripLeft(s[1..]) else s
  }

  function StripRight(s: string): string {
    if s != "" && IsSpace(s[|s| - 1]) then StripRight(s[..|s| - 1]) else s
  }

  function Strip(s: string): string { StripRight(StripLeft(s)) }

  predicate AllBlank(s: string) { forall i :: 0 <= i < |s| ==> IsSpace(s[i]) }

  lemma {:induction false} StripLeftOf(left: string, core: string)
    requires AllBlank(left) && core != "" && !IsSpace(core[0])
    ensures StripLeft(left + core) == core
  {
    if left == "" {
      assert left + core == core;
    } else {
      assert (left + core)[1..] == left[1..] + core;
      StripLeftOf(left[1..], core);
    }
  }

  lemma {:induction false} StripRightOf(core: string, right: string)
    requires AllBlank(right) && core != "" && !IsSpace(core[|core| - 1])
    ensures StripRight(core + right) == core
    decreases |right|
  {
    if right == "" {
      assert core + right == core;
    } else {
      assert (core + right)[..|core + right| - 1] == core + right[..|right| - 1];
      StripRightOf(core, right[..|right| - 1]);
    }
  }

  lemma StripOf(left: string, core: string, right: string)
    requires AllBlank(left) && AllBlank(right)
    requires core != "" && !IsSpace(core[0]) && !IsSpace(core[|core| - 1])
    ensures Strip(left + (core + right)) == core
  {
    StripLeftOf(left, core + right);
    StripRightOf(core, right);
  }

  /** Stripping removes nothing but blanks. */
  lemma StripKeeps(s: string, c: char)
    requires c in s && !IsSpace(c)
    ensures c in Strip(s)
  {
    StripLeftKeeps(s, c);
    StripRightKeeps(StripLeft(s), c);
  }

  lemma {:induction false} StripLeftKeeps(s: string, c: char)
    requires c in s && !IsSpace(c)
    ensures c in StripLeft(s)
  {
    if IsSpace(s[0]) {
      StripLeftKeeps(s[1..], c);
    }
  }

  lemma {:induction false} StripRightKeeps(s: string, c: char)
    requires c in s && !IsSpace(c)
    ensures c in StripRight(s)
  {
    if IsSpace(s[|s| - 1]) {
      StripRightKeeps(s[..|s| - 1], c);
    }
  }

  /** The blanks, one by one. */
  lemma Blanks(c: char)
    ensures IsSpace(c) <==> c as int in {9, 10, 11, 12, 13, 28, 29, 30, 31, 32}
  {
  }

  function Lookup<K, V>(m: map<K, V>, key: K): Option<V> {
    if key in m then Some(m[key]) else None
  }

  function IndexOf(s: string, c: char): nat {
    if s == "" || s[0] == c then 0 else 1 + IndexOf(s[1..], c)
  }

  lemma {:induction false} IndexAfter(p: string, c: char, rest: string)
    requires c !in p
    ensures IndexOf(p + [c] + rest, c) == |p|
  {
    if p != "" {
      assert (p + [c] + rest)[1..] == p[1..] + [c] + rest;
      IndexAfter(p[1..], c, rest);
    }
  }

  /** A text can be cut at the first occurrence of a character in one way only. */
  lemma CutIsUnique(p: string, s: string, q: string, t: string, c: char)
    requires c !in p && c !in q && p + [c] + s == q + [c] + t
    ensures p == q && s == t
  {
    IndexAfter(p, c, s);
    IndexAfter(q, c, t);
    var (x, y) := (p + [c] + s, q + [c] + t);
    assert x[..|p|] == p && x[|p| + 1..] == s;
    assert y[..|q|] == q && y[|q| + 1..] == t;
  }
}
