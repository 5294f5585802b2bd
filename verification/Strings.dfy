/** Trimming and searching in strings of code points, as Go's strings package does them. */
module Strings {

  /** Unicode White_Space. */
  predicate IsSpace(c: char) {
    c in {'\t', '\n', '\U{0B}', '\U{0C}', '\r', ' ', '\U{85}', '\U{A0}', '\U{1680}', '\U{2028}', '\U{2029}', '\U{202F}', '\U{205F}', '\U{3000}'}
    || '\U{2000}' <= c <= '\U{200A}'
  }

  function TrimLeft(s: string): string {
    if s != "" && IsSpace(s[0]) then TrimLeft(s[1..]) else s
  }

  function TrimRight(s: string): string {
    if s != "" && IsSpace(s[|s| - 1]) then TrimRight(s[..|s| - 1]) else s
  }

  function TrimSpace(s: string): string {
    TrimRight(TrimLeft(s))
  }

  ghost predicate IsPad(pad: string) {
    forall c :: c in pad ==> IsSpace(c)
  }

  lemma TrimKeeps(s: string)
    requires s != "" ==> !IsSpace(s[0]) && !IsSpace(s[|s| - 1])
    ensures TrimSpace(s) == s
  {
  }

  lemma {:induction false} TrimLeftDrops(pad: string, s: string)
    requires IsPad(pad) && (s != "" ==> !IsSpace(s[0]))
    ensures TrimLeft(pad + s) == s
  {
    if pad != "" {
      assert (pad + s)[1..] == pad[1..] + s;
      TrimLeftDrops(pad[1..], s);
    } else {
      assert pad + s == s;
    }
  }

  lemma {:induction false} TrimRightDrops(s: string, pad: string)
    requires IsPad(pad) && (s != "" ==> !IsSpace(s[|s| - 1]))
    ensures TrimRight(s + pad) == s
  {
    if pad != "" {
      assert (s + pad)[..|s + pad| - 1] == s + pad[..|pad| - 1];
      TrimRightDrops(s, pad[..|pad| - 1]);
    } else {
      assert s + pad == s;
    }
  }

  lemma TrimDrops(before: string, s: string, after: string)
    requires IsPad(before) && IsPad(after) && s != "" && !IsSpace(s[0]) && !IsSpace(s[|s| - 1])
    ensures TrimSpace(before + s + after) == s
  {
    assert before + s + after == before + (s + after);
    TrimLeftDrops(before, s + after);
    TrimRightDrops(s, after);
  }

  /** The first index of c, or the length. */
  function Find(c: char, s: string): (i: nat)
    ensures i <= |s|
  {
    if s == "" || s[0] == c then 0 else 1 + Find(c, s[1..])
  }

  lemma {:induction false} FindFirst(c: char, s: string)
    ensures Find(c, s) < |s| ==> s[Find(c, s)] == c
    ensures forall k :: 0 <= k < Find(c, s) ==> s[k] != c
  {
    if s != "" && s[0] != c { FindFirst(c, s[1..]); }
  }

  lemma FindIs(c: char, s: string, i: nat)
    requires i <= |s| && (i < |s| ==> s[i] == c) && forall k :: 0 <= k < i ==> s[k] != c
    ensures Find(c, s) == i
  {
    FindFirst(c, s);
  }
}
