/** PostgreSQL's `LIKE` / `ILIKE` pattern match (section 9.7.1 of the PostgreSQL manual),
    which `string_field.ilike(f"%{search_term}%")` in src/services/sample_service.py
    compiles to: `%` matches any sequence, `_` any one character, and the default escape
    character `\` makes the next character literal. */
module SqlLike {
  import opened Text

  predicate IsWildcard(c: char) {
    c == '%' || c == '_' || c == '\\'
  }

  /** A pattern made of literal characters only. */
  predicate NoWildcards(t: string) {
    forall i :: 0 <= i < |t| ==> !IsWildcard(t[i])
  }

  /** `s LIKE p`. A pattern ending in a lone escape matches nothing (PostgreSQL rejects it;
      `%term%` can never end that way). */
  function Like(s: string, p: string): bool
    decreases |s| + |p|
  {
    if p == [] then s == []
    else if p[0] == '%' then Like(s, p[1..]) || (s != [] && Like(s[1..], p))
    else if p[0] == '_' then s != [] && Like(s[1..], p[1..])
    else if p[0] == '\\' then |p| >= 2 && s != [] && s[0] == p[1] && Like(s[1..], p[2..])
    else s != [] && s[0] == p[0] && Like(s[1..], p[1..])
  }

  /** `s ILIKE p`: both sides case-folded. */
  function ILike(s: string, p: string): bool {
    Like(Lower(s), Lower(p))
  }

  /** A literal prefix of the pattern must be matched character for character. */
  lemma {:induction false} LikeLiteralPrefix(s: string, t: string, rest: string)
    requires NoWildcards(t)
    ensures Like(s, t + rest) <==> StartsWith(s, t) && Like(s[|t|..], rest)
    decreases |t|
  {
    if t == [] {
      assert t + rest == rest;
      assert s[|t|..] == s;
    } else {
      var p := t + rest;
      assert p[0] == t[0] && p[1..] == t[1..] + rest;
      assert NoWildcards(t[1..]) by {
        forall i | 0 <= i < |t[1..]| ensures !IsWildcard(t[1..][i]) {
          assert t[1..][i] == t[i + 1];
        }
      }
      if s != [] {
        LikeLiteralPrefix(s[1..], t[1..], rest);
        if |t| <= |s| {
          assert s[1..][|t[1..]|..] == s[|t|..];
        }
        assert StartsWith(s, t) <==> s[0] == t[0] && StartsWith(s[1..], t[1..]) by {
          if |t| <= |s| {
            assert s[..|t|] == [s[0]] + s[1..][..|t[1..]|];
            assert t == [t[0]] + t[1..];
          }
        }
      }
    }
  }

  /** `%` matches every string. */
  lemma {:induction false} LikePercent(s: string)
    ensures Like(s, "%")
    decreases |s|
  {
    if s != [] {
      LikePercent(s[1..]);
    }
  }

  /** A leading `%` tries the rest of the pattern at every suffix. */
  lemma {:induction false} LikeLeadingPercent(s: string, q: string)
    ensures Like(s, "%" + q) <==> exists i :: 0 <= i <= |s| && Like(s[i..], q)
    decreases |s|
  {
    var p := "%" + q;
    assert p[1..] == q;
    assert s[0..] == s;
    if s == [] {
      assert Like(s, p) <==> Like(s, q);
    } else {
      LikeLeadingPercent(s[1..], q);
      if Like(s, p) {
        if !Like(s, q) {
          var j :| 0 <= j <= |s[1..]| && Like(s[1..][j..], q);
          assert s[1..][j..] == s[j + 1..];
        }
      }
      if exists i :: 0 <= i <= |s| && Like(s[i..], q) {
        var i :| 0 <= i <= |s| && Like(s[i..], q);
        if i > 0 {
          assert s[1..][i - 1..] == s[i..];
        }
      }
    }
  }

  /** For a term without wildcards, `s LIKE '%term%'` is substring containment. */
  lemma LikeContains(s: string, t: string)
    requires NoWildcards(t)
    ensures Like(s, "%" + t + "%") <==> Contains(s, t)
  {
    assert "%" + t + "%" == "%" + (t + "%");
    LikeLeadingPercent(s, t + "%");
    forall i | 0 <= i <= |s|
      ensures Like(s[i..], t + "%") <==> OccursAt(s, t, i)
    {
      LikeLiteralPrefix(s[i..], t, "%");
      if i + |t| <= |s| {
        LikePercent(s[i..][|t|..]);
        assert s[i..][..|t|] == s[i..i + |t|];
      }
    }
  }

  /** Case folding leaves the wildcard characters in place and adds none. */
  lemma LowerNoWildcards(t: string)
    requires NoWildcards(t)
    ensures NoWildcards(Lower(t))
  {
  }

  /** For a term without wildcards, `s ILIKE '%term%'` is case-insensitive containment. */
  lemma ILikeContains(s: string, t: string)
    requires NoWildcards(t)
    ensures ILike(s, "%" + t + "%") <==> Contains(Lower(s), Lower(t))
  {
    assert Lower("%" + t + "%") == "%" + Lower(t) + "%";
    LowerNoWildcards(t);
    LikeContains(Lower(s), Lower(t));
  }
}
