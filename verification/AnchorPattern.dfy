/** The LIKE pattern Graph builds to expand a table to its columns. */
module AnchorPattern {
  import opened LineageGraph

  predicate IsSpecial(c: char) {
    c == '%' || c == '_' || c == '\\'
  }

  ghost predicate Plain(f: string) {
    forall i :: 0 <= i < |f| ==> !IsSpecial(f[i])
  }

  lemma LikePlainPrefix(f: string, s: string, rest: string)
    requires Plain(f)
    ensures Like(s, f + rest) <==> f <= s && Like(s[|f|..], rest)
  {
    if f == "" {
      assert f + rest == rest;
    } else {
      assert (f + rest)[1..] == f[1..] + rest;
      if s != "" && s[0] == f[0] {
        LikePlainPrefix(f[1..], s[1..], rest);
        assert f <= s <==> f[1..] <= s[1..];
        if f <= s {
          assert s[|f|..] == s[1..][|f[1..]|..];
        }
      }
    }
  }

  lemma LikeAnything(s: string)
    ensures Like(s, "%")
    decreases |s|
  {
    if s != "" {
      LikeAnything(s[1..]);
    }
  }

  lemma LikeDot(s: string)
    ensures Like(s, ".%") <==> s != "" && s[0] == '.'
  {
    if s != "" {
      assert ".%"[1..] == "%";
      LikeAnything(s[1..]);
    }
  }

  /** A short string that a pattern matches. */
  ghost function Sample(p: string): string {
    if p == "" then ""
    else if p[0] == '%' then Sample(p[1..])
    else if p[0] == '_' then "x" + Sample(p[1..])
    else if p[0] == '\\' && |p| > 1 then [p[1]] + Sample(p[2..])
    else [p[0]] + Sample(p[1..])
  }

  lemma SampleMatches(p: string)
    ensures Like(Sample(p), p)
  {
    if p == "" {
    } else if p[0] == '\\' && |p| > 1 {
      SampleMatches(p[2..]);
      assert Sample(p)[1..] == Sample(p[2..]);
    } else {
      SampleMatches(p[1..]);
      if p[0] != '%' {
        assert Sample(p)[1..] == Sample(p[1..]);
      }
    }
  }

  lemma SampleIsShort(f: string)
    ensures |Sample(f + ".%")| <= |f| + 1
  {
    if f == "" {
      assert ".%"[1..] == "%" && "%"[1..] == "";
      assert Sample("%") == Sample("");
    } else if f[0] == '\\' {
      var p := f + ".%";
      if |f| > 1 {
        SampleIsShort(f[2..]);
        assert p[2..] == f[2..] + ".%";
      } else {
        assert p[2..] == "%" && "%"[1..] == "";
        assert Sample("%") == Sample("");
      }
    } else {
      SampleIsShort(f[1..]);
      assert (f + ".%")[1..] == f[1..] + ".%";
    }
  }

  lemma SampleEscapes(f: string)
    requires !Plain(f)
    ensures !(f + "." <= Sample(f + ".%"))
  {
    var p, s := f + ".%", Sample(f + ".%");
    assert p[1..] == f[1..] + ".%";
    if f[0] == '%' {
      SampleIsShort(f[1..]);
    } else if f[0] == '_' {
      assert s[0] == 'x' && (f + ".")[0] == '_';
    } else if f[0] == '\\' {
      if |f| > 1 {
        SampleIsShort(f[2..]);
        assert p[2..] == f[2..] + ".%";
      } else {
        assert p[2..] == "%" && "%"[1..] == "";
        assert Sample("%") == Sample("");
      }
    } else {
      assert !Plain(f[1..]) by {
        var i :| 0 <= i < |f| && IsSpecial(f[i]);
        assert f[1..][i - 1] == f[i];
      }
      SampleEscapes(f[1..]);
      assert s[1..] == Sample(f[1..] + ".%");
    }
  }

  /** The anchor pattern of table f takes v for one of its columns. */
  predicate Expands(f: string, v: string) {
    Like(v, f + ".%")
  }

  predicate IsBelow(f: string, v: string) {
    f + "." <= v
  }

  /** The expansion is right for every name exactly when f has no LIKE
      metacharacter: an underscore in f is a wildcard. */
  lemma PatternMeansPrefix(f: string)
    ensures (forall v :: Expands(f, v) <==> IsBelow(f, v)) <==> Plain(f)
  {
    if Plain(f) {
      forall v ensures Expands(f, v) <==> IsBelow(f, v) {
        LikePlainPrefix(f, v, ".%");
        if f <= v {
          LikeDot(v[|f|..]);
          assert f + "." <= v <==> v[|f|..] != "" && v[|f|..][0] == '.';
        }
      }
    } else {
      var v := Sample(f + ".%");
      SampleMatches(f + ".%");
      SampleEscapes(f);
      assert Expands(f, v) && !IsBelow(f, v);
    }
  }
}
