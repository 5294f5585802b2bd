/**
 Search by name: the user's text is escaped, wrapped in "%" and matched with ILIKE.
 Case folding is any map on characters that leaves the three pattern characters alone.
 */
module Like {

  const SPECIAL := {'\\', '%', '_'}

  /** escapeILIKE: each special character gets a backslash in front. */
  function Escape(s: string): string {
    if s == "" then ""
    else (if s[0] in SPECIAL then ['\\', s[0]] else [s[0]]) + Escape(s[1..])
  }

  /** The pattern AccountRepository.List and the user list pass to ILIKE. */
  function NamePattern(name: string): string {
    "%" + Escape(name) + "%"
  }

  /** LIKE with backslash as the escape character. PostgreSQL reports an error for a pattern that ends in a lone
      backslash; here such a pattern matches nothing. */
  predicate Match(p: string, t: string)
    decreases |p| + |t|
  {
    if p == "" then t == ""
    else if p[0] == '%' then Match(p[1..], t) || (t != "" && Match(p, t[1..]))
    else if t == "" then false
    else if p[0] == '_' then Match(p[1..], t[1..])
    else if p[0] == '\\' then |p| >= 2 && p[1] == t[0] && Match(p[2..], t[1..])
    else p[0] == t[0] && Match(p[1..], t[1..])
  }

  function Folded(fold: char -> char, s: string): (r: string)
    ensures |r| == |s| && forall i :: 0 <= i < |s| ==> r[i] == fold(s[i])
  {
    seq(|s|, i requires 0 <= i < |s| => fold(s[i]))
  }

  predicate ILike(fold: char -> char, p: string, t: string) {
    Match(Folded(fold, p), Folded(fold, t))
  }

  ghost predicate KeepsSpecials(fold: char -> char) {
    forall c, x :: x in SPECIAL ==> (fold(c) == x <==> c == x)
  }

  predicate OccursAt(s: string, t: string, i: int) {
    0 <= i <= |t| - |s| && t[i..i + |s|] == s
  }

  ghost predicate OccursIn(s: string, t: string) {
    exists i :: OccursAt(s, t, i)
  }

  lemma FoldedConcat(fold: char -> char, a: string, b: string)
    ensures Folded(fold, a + b) == Folded(fold, a) + Folded(fold, b)
  {
  }

  /** "%" skips any number of characters. */
  lemma {:induction false} PercentSkips(q: string, t: string)
    ensures Match("%" + q, t) <==> exists i :: 0 <= i <= |t| && Match(q, t[i..])
    decreases |t|
  {
    assert ("%" + q)[1..] == q && t[0..] == t;
    if t != "" {
      PercentSkips(q, t[1..]);
      forall i | 1 <= i <= |t| ensures t[i..] == t[1..][i - 1..] { }
      if Match("%" + q, t[1..]) {
        var i :| 0 <= i <= |t[1..]| && Match(q, t[1..][i..]);
        assert t[1..][i..] == t[i + 1..];
      }
    }
  }

  /** An escaped text in front of the last "%" matches exactly itself. */
  lemma {:induction false} EscapedIsLiteral(fold: char -> char, s: string, t: string)
    requires KeepsSpecials(fold)
    ensures Match(Folded(fold, Escape(s)) + "%", t) <==> |s| <= |t| && t[..|s|] == Folded(fold, s)
    decreases |s|
  {
    var p := Folded(fold, Escape(s)) + "%";
    if s == "" {
      assert p == "%" + "";
      PercentSkips("", t);
      assert t[|t|..] == "";
    } else {
      var head := if s[0] in SPECIAL then ['\\', s[0]] else [s[0]];
      FoldedConcat(fold, head, Escape(s[1..]));
      var rest := Folded(fold, Escape(s[1..])) + "%";
      assert p == Folded(fold, head) + rest;
      assert p[|head|..] == rest;
      assert Folded(fold, s) == [fold(s[0])] + Folded(fold, s[1..]);
      if t != "" {
        EscapedIsLiteral(fold, s[1..], t[1..]);
        if |s| <= |t| { assert t[..|s|] == [t[0]] + t[1..][..|s| - 1]; }
      }
    }
  }

  /** The search finds a name exactly when the text occurs in it up to case: nothing the user types is a wildcard. */
  lemma SearchIsContains(fold: char -> char, s: string, t: string)
    requires KeepsSpecials(fold)
    ensures ILike(fold, NamePattern(s), t) <==> OccursIn(Folded(fold, s), Folded(fold, t))
  {
    hide Match, Escape, Folded;
    var folded, text := Folded(fold, s), Folded(fold, t);
    var q := Folded(fold, Escape(s)) + "%";
    PatternFolded(fold, s);
    PercentSkips(q, text);
    forall i | 0 <= i <= |text| ensures Match(q, text[i..]) <==> OccursAt(folded, text, i) {
      EscapedIsLiteral(fold, s, text[i..]);
      if i <= |text| - |folded| { assert text[i..][..|folded|] == text[i..i + |folded|]; }
    }
  }

  lemma PatternFolded(fold: char -> char, s: string)
    requires KeepsSpecials(fold)
    ensures Folded(fold, NamePattern(s)) == "%" + (Folded(fold, Escape(s)) + "%")
  {
    hide Escape;
    FoldedConcat(fold, "%" + Escape(s), "%");
    FoldedConcat(fold, "%", Escape(s));
    assert fold('%') == '%';
    assert Folded(fold, "%") == "%";
  }

  /** Left out of the pattern, the escaping would turn a search for "_" into one for any non-empty name. */
  lemma UnescapedIsWildcard(t: string)
    ensures Match("%_%", t) <==> t != ""
    ensures Match(NamePattern("_"), t) <==> '_' in t
  {
    assert "%_%" == "%" + "_%";
    PercentSkips("_%", t);
    forall u: string ensures Match("_%", u) <==> u != "" {
      if u != "" {
        PercentSkips("", u[1..]);
        assert "%" + "" == "%" && u[1..][|u| - 1..] == "" && "_%"[1..] == "%";
      }
    }
    if t != "" { assert Match("_%", t[0..]); }
    SearchIsContains(c => c, "_", t);
    assert Folded(c => c, t) == t && Folded(c => c, NamePattern("_")) == NamePattern("_") && Folded(c => c, "_") == "_";
    if '_' in t {
      var i :| 0 <= i < |t| && t[i] == '_';
      assert OccursAt("_", t, i);
    }
  }
}
