/** Byte strings as the C library sees them: searching, splitting and joining on one separator.

    A C string is a `string` whose characters stand for bytes; the terminating NUL is not part of it.
  */
module Text {

  datatype Option<+T> = None | Some(value: T)

  /** No line feed and no carriage return. */
  predicate SingleLine(s: string)
  {
    '\n' !in s && '\r' !in s
  }

  predicate FirstAt(s: string, c: char, k: nat)
  {
    k < |s| && s[k] == c && forall j :: 0 <= j < k ==> s[j] != c
  }

  lemma {:induction false} FirstExists(s: string, c: char) returns (k: nat)
    requires c in s
    ensures FirstAt(s, c, k)
  {
    if s[0] == c {
      k := 0;
    } else {
      var r := FirstExists(s[1..], c);
      k := r + 1;
    }
  }

  /** strchr/memchr: the first position of c in s, or |s| when there is none. */
  function IndexOf(s: string, c: char): (k: nat)
    ensures k <= |s|
    ensures k < |s| <==> c in s
    ensures k < |s| ==> FirstAt(s, c, k)
  {
    if c !in s then |s|
    else
      assert exists k :: FirstAt(s, c, k) by { var k := FirstExists(s, c); }
      var k :| 0 <= k < |s| && FirstAt(s, c, k);
      k
  }

  lemma {:induction false} IndexOfJoined(p: string, c: char, rest: string)
    requires c !in p
    ensures IndexOf(p + [c] + rest, c) == |p|
    ensures (p + [c] + rest)[..|p|] == p
    ensures (p + [c] + rest)[|p| + 1..] == rest
  {
    var s := p + [c] + rest;
    assert s[..|p|] == p;
    forall j | 0 <= j < |p| ensures s[j] != c {
      assert s[j] == p[j] && p[j] in p;
    }
    assert FirstAt(s, c, |p|);
  }

  /** The pieces of s between consecutive separators; always at least one piece. */
  function Split(s: string, c: char): (parts: seq<string>)
    ensures |parts| > 0
    decreases |s|
  {
    var k := IndexOf(s, c);
    if k == |s| then [s] else [s[..k]] + Split(s[k + 1..], c)
  }

  function Join(parts: seq<string>, c: char): string
    requires |parts| > 0
  {
    if |parts| == 1 then parts[0] else parts[0] + [c] + Join(parts[1..], c)
  }

  /** Splitting loses nothing, and no piece has a separator. */
  lemma {:induction false} JoinSplit(s: string, c: char)
    ensures Join(Split(s, c), c) == s
    ensures forall p :: p in Split(s, c) ==> c !in p
    decreases |s|
  {
    var k := IndexOf(s, c);
    if k < |s| {
      JoinSplit(s[k + 1..], c);
      assert s == s[..k] + [c] + s[k + 1..];
      assert Split(s, c)[1..] == Split(s[k + 1..], c);
    }
  }

  lemma {:induction false} SplitStep(p: string, c: char, rest: string)
    requires c !in p
    ensures Split(p + [c] + rest, c) == [p] + Split(rest, c)
  {
    IndexOfJoined(p, c, rest);
  }

  lemma {:induction false} SplitJoin(parts: seq<string>, c: char)
    requires |parts| > 0
    requires forall p :: p in parts ==> c !in p
    ensures Split(Join(parts, c), c) == parts
  {
    assert parts[0] in parts;
    if |parts| > 1 {
      forall p | p in parts[1..] ensures c !in p { assert p in parts; }
      SplitJoin(parts[1..], c);
      SplitStep(parts[0], c, Join(parts[1..], c));
    }
  }

  lemma {:induction false} Join4(a: string, b: string, d: string, e: string, c: char)
    ensures Join([a, b, d, e], c) == a + [c] + (b + [c] + (d + [c] + e))
  {
    assert [a, b, d, e][1..] == [b, d, e] && [b, d, e][1..] == [d, e] && [d, e][1..] == [e];
    assert Join([e], c) == e;
    assert Join([d, e], c) == d + [c] + e;
    assert Join([b, d, e], c) == b + [c] + (d + [c] + e);
  }

  /** Which characters a joined string has. */
  lemma {:induction false} JoinChars(parts: seq<string>, c: char, x: char)
    requires |parts| > 0
    ensures x in Join(parts, c) <==> (x == c && |parts| > 1) || exists p :: p in parts && x in p
  {
    if |parts| == 1 {
      assert parts[0] in parts;
    } else {
      JoinChars(parts[1..], c, x);
      assert parts == [parts[0]] + parts[1..];
      assert x in Join(parts, c) <==> x in parts[0] || x == c || x in Join(parts[1..], c);
      assert parts[0] in parts;
    }
  }

  /** strtok's view of a text: the non-empty pieces. */
  function NonEmpty(parts: seq<string>): seq<string>
  {
    if parts == [] then []
    else if parts[0] == [] then NonEmpty(parts[1..])
    else [parts[0]] + NonEmpty(parts[1..])
  }

  lemma {:induction false} NonEmptyHas(parts: seq<string>, p: string)
    ensures p in NonEmpty(parts) <==> p in parts && p != []
  {
    if parts != [] {
      NonEmptyHas(parts[1..], p);
    }
  }

  function Tokens(s: string, c: char): seq<string>
  {
    NonEmpty(Split(s, c))
  }

  lemma {:induction false} TokenIs(s: string, c: char, p: string)
    requires p in Tokens(s, c)
    ensures p != [] && c !in p
  {
    NonEmptyHas(Split(s, c), p);
    JoinSplit(s, c);
  }

  lemma {:induction false} NonEmptyAppend(a: seq<string>, b: seq<string>)
    ensures NonEmpty(a + b) == NonEmpty(a) + NonEmpty(b)
  {
    if a == [] {
      assert a + b == b;
    } else {
      assert (a + b)[1..] == a[1..] + b;
      NonEmptyAppend(a[1..], b);
    }
  }

  lemma {:induction false} NonEmptyIdentity(parts: seq<string>)
    requires forall p :: p in parts ==> p != []
    ensures NonEmpty(parts) == parts
  {
    if parts != [] {
      forall p | p in parts[1..] ensures p != [] {
        assert p in parts;
      }
      assert parts[0] in parts;
      NonEmptyIdentity(parts[1..]);
    }
  }
}
