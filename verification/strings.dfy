/** String helpers the router relies on: Go's strings.IndexByte and the
    segment view of a slash-separated path. Strings are sequences of
    characters; each character stands for one byte of the escaped path. */
module Strings {

  /** Position of the first `c` in `s`, or -1 when `s` holds no `c`
      (IndexByteSpec states this). */
  function IndexByte(s: string, c: char): (r: int)
    ensures -1 <= r < |s|
  {
    if s == [] then -1
    else if s[0] == c then 0
    else
      var k := IndexByte(s[1..], c);
      if k == -1 then -1 else k + 1
  }

  /** IndexByte answers -1 exactly when `c` is absent, and otherwise the
      position of a `c` with none before it. */
  lemma {:induction false} IndexByteSpec(s: string, c: char)
    ensures IndexByte(s, c) == -1 <==> c !in s
    ensures IndexByte(s, c) >= 0 ==> s[IndexByte(s, c)] == c && c !in s[..IndexByte(s, c)]
    decreases |s|
  {
    if s != [] && s[0] != c {
      IndexByteSpec(s[1..], c);
      var k := IndexByte(s[1..], c);
      assert s == [s[0]] + s[1..];
      if k >= 0 {
        assert s[..k + 1] == [s[0]] + s[1..][..k];
      }
    }
  }

  /** Searching past a prefix free of `c` shifts the answer by the prefix length. */
  lemma {:induction false} IndexByteAfter(a: string, b: string, c: char)
    requires c !in a
    ensures IndexByte(a + b, c) == if c in b then |a| + IndexByte(b, c) else -1
    decreases |a|
  {
    IndexByteSpec(b, c);
    if a != [] {
      assert (a + b)[0] == a[0];
      assert (a + b)[1..] == a[1..] + b;
      IndexByteAfter(a[1..], b, c);
    } else {
      assert a + b == b;
      IndexByteSpec(b, c);
    }
  }

  /** The first `c` after a `c`-free prefix is right behind the prefix. */
  lemma IndexByteAt(a: string, b: string, c: char)
    requires c !in a
    ensures IndexByte(a + [c] + b, c) == |a|
  {
    assert a + [c] + b == a + ([c] + b);
    IndexByteAfter(a, [c] + b, c);
    assert ([c] + b)[0] == c;
  }

  /** The slash-separated segments of `s`, as Go's strings.Split(s, "/"):
      k slashes give k + 1 segments, and empty segments are kept. */
  function Split(s: string): (parts: seq<string>)
    ensures |parts| >= 1
    ensures forall p | p in parts :: '/' !in p
    decreases |s|
  {
    IndexByteSpec(s, '/');
    var i := IndexByte(s, '/');
    if i > -1 then [s[..i]] + Split(s[i + 1..]) else [s]
  }

  /** Segments glued back together with slashes. */
  function Join(parts: seq<string>): string
    requires |parts| >= 1
  {
    if |parts| == 1 then parts[0] else parts[0] + "/" + Join(parts[1..])
  }

  lemma JoinCons(a: string, rest: seq<string>)
    requires |rest| >= 1
    ensures Join([a] + rest) == a + "/" + Join(rest)
  {
    assert ([a] + rest)[1..] == rest;
  }

  /** Splitting a string and joining the segments gives the string back. */
  lemma {:induction false} JoinSplit(s: string)
    ensures Join(Split(s)) == s
    decreases |s|
  {
    var i := IndexByte(s, '/');
    IndexByteSpec(s, '/');
    if i > -1 {
      var rest := s[i + 1..];
      var parts := Split(s);
      assert parts == [s[..i]] + Split(rest);
      assert parts[1..] == Split(rest);
      JoinSplit(rest);
      calc {
        Join(parts);
        parts[0] + "/" + Join(parts[1..]);
        s[..i] + "/" + rest;
        { assert s[..i] + [s[i]] + s[i + 1..] == s; }
        s;
      }
    }
  }

  /** Joining slash-free segments and splitting the result gives the segments back. */
  lemma {:induction false} SplitJoin(parts: seq<string>)
    requires |parts| >= 1
    requires forall p | p in parts :: '/' !in p
    ensures Split(Join(parts)) == parts
    decreases |parts|
  {
    if |parts| > 1 {
      SplitJoin(parts[1..]);
      SplitCons(parts[0], Join(parts[1..]));
    } else {
      SplitSingle(parts[0]);
    }
  }

  /** Splitting `a/b` for slash-free `a` yields `a` followed by the segments of `b`. */
  lemma SplitCons(a: string, b: string)
    requires '/' !in a
    ensures Split(a + "/" + b) == [a] + Split(b)
  {
    var s := a + "/" + b;
    assert s == a + ("/" + b);
    IndexByteAfter(a, "/" + b, '/');
    assert IndexByte(s, '/') == |a|;
    assert s[..|a|] == a;
    assert s[|a| + 1..] == b;
  }

  /** A slash-free string is a single segment. */
  lemma SplitSingle(a: string)
    requires '/' !in a
    ensures Split(a) == [a]
  {
    IndexByteSpec(a, '/');
  }

  /** A character other than `/` occurs in a joined list exactly when it occurs in a part. */
  lemma {:induction false} JoinHas(parts: seq<string>, c: char)
    requires |parts| >= 1 && c != '/'
    ensures c in Join(parts) <==> exists i | 0 <= i < |parts| :: c in parts[i]
    decreases |parts|
  {
    if |parts| > 1 {
      JoinHas(parts[1..], c);
      JoinCons(parts[0], parts[1..]);
      assert parts == [parts[0]] + parts[1..];
      var j := Join(parts[1..]);
      assert c in Join(parts) <==> c in parts[0] || c in j;
      if c in j {
        var i :| 0 <= i < |parts[1..]| && c in parts[1..][i];
        assert c in parts[i + 1];
      }
      if exists i | 0 <= i < |parts| :: c in parts[i] {
        var i :| 0 <= i < |parts| && c in parts[i];
        if i > 0 {
          assert c in parts[1..][i - 1];
        }
      }
    } else {
      assert Join(parts) == parts[0];
    }
  }
}
