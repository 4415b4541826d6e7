/** strings.Split for a one-character separator, a newline unless it says
    otherwise, and strings.Join(lines, "\n"). */
module TextLines {

  function Split(s: string, sep: char := '\n'): (lines: seq<string>)
    ensures |lines| > 0
  {
    if |s| == 0 then [""]
    else if s[0] == sep then [""] + Split(s[1..], sep)
    else
      var rest := Split(s[1..], sep);
      [[s[0]] + rest[0]] + rest[1..]
  }

  function Join(lines: seq<string>): string
    requires |lines| > 0
  {
    if |lines| == 1 then lines[0] else lines[0] + "\n" + Join(lines[1..])
  }

  ghost predicate OneLine(s: string) {
    '\n' !in s
  }

  lemma {:induction false} JoinSplit(s: string)
    ensures Join(Split(s)) == s
  {
    if |s| > 0 {
      JoinSplit(s[1..]);
      var rest := Split(s[1..]);
      if s[0] == '\n' {
        assert Split(s)[1..] == rest;
      } else {
        assert Split(s)[1..] == rest[1..];
      }
    }
  }

  lemma {:induction false} SplitIsOneLine(s: string)
    ensures forall i :: 0 <= i < |Split(s)| ==> OneLine(Split(s)[i])
  {
    if |s| > 0 {
      SplitIsOneLine(s[1..]);
    }
  }

  lemma {:induction false} SplitOneLine(l: string)
    requires OneLine(l)
    ensures Split(l) == [l]
  {
    if |l| > 0 {
      assert l[0] != '\n';
      SplitOneLine(l[1..]);
      assert [l[0]] + l[1..] == l;
    }
  }

  lemma {:induction false} SplitCons(l: string, s: string)
    requires OneLine(l)
    ensures Split(l + "\n" + s) == [l] + Split(s)
  {
    var t := l + "\n" + s;
    if |l| == 0 {
      assert t[1..] == s;
    } else {
      assert l[0] != '\n' && t[0] == l[0];
      assert t[1..] == l[1..] + "\n" + s;
      SplitCons(l[1..], s);
      assert Split(t[1..])[0] == l[1..] && Split(t[1..])[1..] == Split(s);
      assert [l[0]] + l[1..] == l;
    }
  }

  lemma {:induction false} SplitJoin(lines: seq<string>)
    requires |lines| > 0 && forall i :: 0 <= i < |lines| ==> OneLine(lines[i])
    ensures Split(Join(lines)) == lines
  {
    if |lines| == 1 {
      SplitOneLine(lines[0]);
    } else {
      SplitJoin(lines[1..]);
      SplitCons(lines[0], Join(lines[1..]));
    }
  }

  /** A newline separates the lines before it from those behind it. */
  lemma {:induction false} SplitAround(s: string, t: string)
    ensures Split(s + "\n" + t) == Split(s) + Split(t)
    decreases |s|
  {
    var all := s + "\n" + t;
    if |s| == 0 {
      assert all[1..] == t;
    } else {
      assert all[0] == s[0] && all[1..] == s[1..] + "\n" + t;
      SplitAround(s[1..], t);
    }
  }

  /** Text without a newline goes in front of the first line. */
  lemma {:induction false} SplitPrefixed(l: string, s: string)
    requires OneLine(l)
    ensures Split(l + s)[0] == l + Split(s)[0]
    decreases |l|
  {
    if |l| == 0 {
      assert l + s == s;
    } else {
      assert l[0] != '\n' && (l + s)[0] == l[0] && (l + s)[1..] == l[1..] + s;
      SplitPrefixed(l[1..], s);
    }
  }

  lemma {:induction false} JoinAround(a: seq<string>, b: seq<string>)
    requires |a| > 0 && |b| > 0
    ensures Join(a + b) == Join(a) + "\n" + Join(b)
    decreases |a|
  {
    if |a| == 1 {
      assert (a + b)[1..] == b;
    } else {
      assert (a + b)[1..] == a[1..] + b;
      JoinAround(a[1..], b);
    }
  }
}
