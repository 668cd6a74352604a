/** The string built-ins the bot relies on, on `seq<char>`:
    `str.split(sep)` with a one-character separator, its inverse `sep.join`,
    `str.strip()` with no argument, and `str.lower()` restricted to ASCII. */
module Text {

  /** Number of occurrences of `c` in `s`. */
  function Count(s: string, c: char): nat
  {
    if s == [] then 0 else (if s[0] == c then 1 else 0) + Count(s[1..], c)
  }

  lemma {:induction false} CountAppend(a: string, b: string, c: char)
    ensures Count(a + b, c) == Count(a, c) + Count(b, c)
  {
    if a == [] {
      assert a + b == b;
    } else {
      assert (a + b)[0] == a[0];
      assert (a + b)[1..] == a[1..] + b;
      CountAppend(a[1..], b, c);
    }
  }

  lemma {:induction false} CountZero(s: string, c: char)
    ensures Count(s, c) == 0 <==> c !in s
  {
    if s != [] {
      CountZero(s[1..], c);
      assert c in s <==> s[0] == c || c in s[1..];
    }
  }

  /** `s.split(sep)`: the pieces between consecutive separators. There is
      always one more piece than separators, and no piece holds one. */
  function Split(s: string, sep: char): (parts: seq<string>)
    ensures |parts| == Count(s, sep) + 1
    ensures forall i :: 0 <= i < |parts| ==> sep !in parts[i]
    decreases |s|
  {
    if s == [] then [[]]
    else
      var rest := Split(s[1..], sep);
      if s[0] == sep then [[]] + rest
      else [[s[0]] + rest[0]] + rest[1..]
  }

  /** `sep.join(parts)`: the first piece leads, and separator-free pieces
      end up with exactly one separator between neighbours. */
  function Join(parts: seq<string>, sep: char): (r: string)
    requires |parts| >= 1
    ensures parts[0] <= r
    ensures (forall i :: 0 <= i < |parts| ==> sep !in parts[i]) ==> Count(r, sep) == |parts| - 1
  {
    if |parts| == 1 then
      CountZero(parts[0], sep);
      parts[0]
    else
      var rest := Join(parts[1..], sep);
      CountAppend(parts[0] + [sep], rest, sep);
      CountAppend(parts[0], [sep], sep);
      CountZero(parts[0], sep);
      assert [sep][1..] == [];
      parts[0] + [sep] + rest
  }

  /** Joining the pieces again gives back the split string. */
  lemma {:induction false} JoinSplit(s: string, sep: char)
    ensures Join(Split(s, sep), sep) == s
  {
    if s != [] {
      var rest := Split(s[1..], sep);
      JoinSplit(s[1..], sep);
      if s[0] == sep {
        assert ([[]] + rest)[1..] == rest;
        assert s == [] + [sep] + Join(rest, sep);
      } else {
        var parts := [[s[0]] + rest[0]] + rest[1..];
        if |rest| == 1 {
          assert s == [s[0]] + s[1..];
        } else {
          assert parts[1..] == rest[1..];
          assert Join(rest, sep) == rest[0] + [sep] + Join(rest[1..], sep);
          assert s == [s[0]] + s[1..];
        }
      }
    }
  }

  /** Splitting a join of separator-free pieces gives back the pieces. */
  lemma {:induction false} SplitJoin(parts: seq<string>, sep: char)
    requires |parts| >= 1
    requires forall i :: 0 <= i < |parts| ==> sep !in parts[i]
    ensures Split(Join(parts, sep), sep) == parts
    decreases |parts|, |parts[0]|
  {
    var head := parts[0];
    if |parts| == 1 {
      SplitFree(head, sep);
    } else if head == [] {
      var tail := Join(parts[1..], sep);
      SplitJoin(parts[1..], sep);
      assert Join(parts, sep) == [sep] + tail;
      assert ([sep] + tail)[1..] == tail;
      assert [[]] + parts[1..] == parts;
    } else {
      var shorter := [head[1..]] + parts[1..];
      assert shorter[1..] == parts[1..];
      assert head[1..] == shorter[0] && sep !in head[1..];
      SplitJoin(shorter, sep);
      var s := Join(parts, sep);
      assert s == [head[0]] + Join(shorter, sep);
      assert s[1..] == Join(shorter, sep);
      assert [head[0]] + head[1..] == head;
      assert [[head[0]] + shorter[0]] + shorter[1..] == parts;
    }
  }

  /** A string without the separator splits into itself alone. */
  lemma {:induction false} SplitFree(s: string, sep: char)
    requires sep !in s
    ensures Split(s, sep) == [s]
  {
    if s != [] {
      SplitFree(s[1..], sep);
      assert [s[0]] + s[1..] == s;
    }
  }

  /** Separator-free text in front of `t` becomes part of the first piece. */
  lemma {:induction false} SplitPrepend(p: string, t: string, sep: char)
    requires sep !in p
    ensures Split(p + t, sep) == [p + Split(t, sep)[0]] + Split(t, sep)[1..]
  {
    var parts := Split(t, sep);
    if p == [] {
      assert p + t == t;
      assert p + parts[0] == parts[0];
      assert [parts[0]] + parts[1..] == parts;
    } else {
      assert (p + t)[1..] == p[1..] + t;
      SplitPrepend(p[1..], t, sep);
      assert [p[0]] + (p[1..] + parts[0]) == p + parts[0];
    }
  }

  /** `parts` with `q` added to the end of its last piece. */
  function AppendLast(parts: seq<string>, q: string): (r: seq<string>)
    requires |parts| >= 1
    ensures |r| == |parts| && r[|r| - 1] == parts[|parts| - 1] + q
    ensures forall i :: 0 <= i < |parts| - 1 ==> r[i] == parts[i]
  {
    parts[..|parts| - 1] + [parts[|parts| - 1] + q]
  }

  lemma AppendLastCons(x: string, parts: seq<string>, q: string)
    requires |parts| >= 1
    ensures [x] + AppendLast(parts, q) == AppendLast([x] + parts, q)
  {
    assert ([x] + parts)[..|parts|] == [x] + parts[..|parts| - 1];
  }

  lemma AppendLastHead(x: string, parts: seq<string>, q: string)
    requires |parts| >= 2
    ensures [x] + AppendLast(parts, q)[1..] == AppendLast([x] + parts[1..], q)
  {
    assert AppendLast(parts, q)[1..] == AppendLast(parts[1..], q);
    AppendLastCons(x, parts[1..], q);
  }

  /** Adding text after a join adds it to the last piece. */
  lemma {:induction false} JoinAppendLast(parts: seq<string>, q: string, sep: char)
    requires |parts| >= 1
    ensures Join(parts, sep) + q == Join(AppendLast(parts, q), sep)
  {
    if |parts| > 1 {
      var rest := parts[1..];
      JoinAppendLast(rest, q, sep);
      AppendLastCons(parts[0], rest, q);
      assert [parts[0]] + rest == parts;
      assert (parts[0] + [sep] + Join(rest, sep)) + q == parts[0] + [sep] + (Join(rest, sep) + q);
    }
  }

  /** Separator-free text after `t` becomes part of the last piece. */
  lemma SplitAppend(t: string, q: string, sep: char)
    requires sep !in q
    ensures Split(t + q, sep) == AppendLast(Split(t, sep), q)
  {
    var parts := Split(t, sep);
    var longer := AppendLast(parts, q);
    JoinSplit(t, sep);
    JoinAppendLast(parts, q, sep);
    forall i | 0 <= i < |longer| ensures sep !in longer[i] {
      if i == |parts| - 1 {
        assert sep !in parts[i];
      }
    }
    SplitJoin(longer, sep);
  }

  /** The characters `str.isspace()` accepts, which `str.strip()` removes. */
  predicate IsSpace(c: char)
  {
    || '\t' <= c <= '\r' || '\U{1c}' <= c <= ' ' || c == '\U{85}' || c == '\U{a0}'
    || c == '\U{1680}' || '\U{2000}' <= c <= '\U{200a}' || c == '\U{2028}' || c == '\U{2029}'
    || c == '\U{202f}' || c == '\U{205f}' || c == '\U{3000}'
  }

  /** How many whitespace characters `s` starts with. */
  function LeadingSpaces(s: string): (n: nat)
    ensures n <= |s|
  {
    if s != [] && IsSpace(s[0]) then 1 + LeadingSpaces(s[1..]) else 0
  }

  /** How many whitespace characters `s` ends with. */
  function TrailingSpaces(s: string): (n: nat)
    ensures n <= |s|
  {
    if s != [] && IsSpace(s[|s| - 1]) then 1 + TrailingSpaces(s[..|s| - 1]) else 0
  }

  lemma {:induction false} LeadingSpacesShape(s: string)
    ensures forall j :: 0 <= j < LeadingSpaces(s) ==> IsSpace(s[j])
    ensures LeadingSpaces(s) == |s| || !IsSpace(s[LeadingSpaces(s)])
  {
    if s != [] && IsSpace(s[0]) {
      LeadingSpacesShape(s[1..]);
    }
  }

  lemma {:induction false} TrailingSpacesShape(s: string)
    ensures forall j :: |s| - TrailingSpaces(s) <= j < |s| ==> IsSpace(s[j])
    ensures TrailingSpaces(s) == |s| || !IsSpace(s[|s| - TrailingSpaces(s) - 1])
  {
    if s != [] && IsSpace(s[|s| - 1]) {
      TrailingSpacesShape(s[..|s| - 1]);
    }
  }

  /** `s.strip()`: `s` without its leading and trailing whitespace. */
  function Strip(s: string): (r: string)
    ensures |r| <= |s|
  {
    var t := s[LeadingSpaces(s)..];
    t[..|t| - TrailingSpaces(t)]
  }

  /** What `Strip` keeps neither starts nor ends with whitespace. */
  lemma StripEnds(s: string)
    ensures Strip(s) == [] || (!IsSpace(Strip(s)[0]) && !IsSpace(Strip(s)[|Strip(s)| - 1]))
  {
    var i := LeadingSpaces(s);
    var t := s[i..];
    var r := Strip(s);
    assert r == t[..|t| - TrailingSpaces(t)];
    if r != [] {
      LeadingSpacesShape(s);
      TrailingSpacesShape(t);
      assert r[0] == s[i];
      assert r[|r| - 1] == t[|t| - TrailingSpaces(t) - 1];
    }
  }

  /** What `Strip` keeps is a middle part of `s` that neither starts nor ends
      with whitespace, and everything it cuts away is whitespace. */
  lemma StripShape(s: string)
    ensures LeadingSpaces(s) + |Strip(s)| <= |s|
    ensures Strip(s) == s[LeadingSpaces(s)..LeadingSpaces(s) + |Strip(s)|]
    ensures forall j :: 0 <= j < LeadingSpaces(s) ==> IsSpace(s[j])
    ensures forall j :: LeadingSpaces(s) + |Strip(s)| <= j < |s| ==> IsSpace(s[j])
    ensures Strip(s) == [] || (!IsSpace(Strip(s)[0]) && !IsSpace(Strip(s)[|Strip(s)| - 1]))
  {
    var i := LeadingSpaces(s);
    var t := s[i..];
    LeadingSpacesShape(s);
    TrailingSpacesShape(t);
    var r := Strip(s);
    assert r == t[..|t| - TrailingSpaces(t)];
    forall j | i + |r| <= j < |s| ensures IsSpace(s[j]) {
      assert s[j] == t[j - i];
    }
    StripEnds(s);
  }

  /** A string that neither starts nor ends with whitespace is its own
      stripped form. */
  lemma StripUnchanged(s: string)
    requires s != [] && !IsSpace(s[0]) && !IsSpace(s[|s| - 1])
    ensures Strip(s) == s
  {
    assert LeadingSpaces(s) == 0;
    assert s[0..] == s;
    assert TrailingSpaces(s) == 0;
  }

  /** Stripping drops no character other than whitespace. */
  lemma StripCount(s: string, c: char)
    requires !IsSpace(c)
    ensures Count(Strip(s), c) == Count(s, c)
  {
    var r := Strip(s);
    var i := LeadingSpaces(s);
    StripShape(s);
    var a, b := s[..i], s[i + |r|..];
    assert s == a + r + b;
    CountAppend(a + r, b, c);
    CountAppend(a, r, c);
    assert c !in a;
    assert forall j :: 0 <= j < |b| ==> b[j] == s[i + |r| + j];
    assert c !in b;
    CountZero(a, c);
    CountZero(b, c);
  }

  /** Every character of `s` is whitespace. */
  ghost predicate AllSpace(s: string)
  {
    forall j :: 0 <= j < |s| ==> IsSpace(s[j])
  }

  lemma AllSpaceAppend(a: string, b: string)
    requires AllSpace(a) && AllSpace(b)
    ensures AllSpace(a + b)
  {
    forall j | 0 <= j < |a + b| ensures IsSpace((a + b)[j]) {
      if j >= |a| {
        assert (a + b)[j] == b[j - |a|];
      }
    }
  }

  /** `s` is its leading whitespace, then what `Strip` keeps, then its
      trailing whitespace. */
  lemma StripParts(s: string) returns (front: string, back: string)
    ensures s == front + (Strip(s) + back)
    ensures AllSpace(front) && AllSpace(back)
  {
    StripShape(s);
    var i, r := LeadingSpaces(s), Strip(s);
    front, back := s[..i], s[i + |r|..];
    forall j | 0 <= j < |back| ensures IsSpace(back[j]) {
      assert back[j] == s[i + |r| + j];
    }
    assert s == s[..i] + (s[i..i + |r|] + s[i + |r|..]);
  }

  lemma {:induction false} LeadingSpacesAppend(p: string, t: string)
    requires AllSpace(p)
    ensures LeadingSpaces(p + t) == |p| + LeadingSpaces(t)
  {
    if p == [] {
      assert p + t == t;
    } else {
      assert (p + t)[1..] == p[1..] + t;
      assert IsSpace(p[0]);
      LeadingSpacesAppend(p[1..], t);
    }
  }

  lemma {:induction false} TrailingSpacesAppend(t: string, q: string)
    requires AllSpace(q)
    ensures TrailingSpaces(t + q) == TrailingSpaces(t) + |q|
  {
    if q == [] {
      assert t + q == t;
    } else {
      assert (t + q)[..|t + q| - 1] == t + q[..|q| - 1];
      assert IsSpace(q[|q| - 1]);
      TrailingSpacesAppend(t, q[..|q| - 1]);
    }
  }

  /** A string that neither starts nor ends with whitespace, framed by
      whitespace, strips to itself. */
  lemma StripFramed(front: string, r: string, back: string)
    requires AllSpace(front) && AllSpace(back)
    requires r == [] || (!IsSpace(r[0]) && !IsSpace(r[|r| - 1]))
    ensures Strip(front + (r + back)) == r
  {
    var s := front + (r + back);
    if r == [] {
      assert r + back == back && back + [] == back;
      LeadingSpacesAppend(back, []);
      LeadingSpacesAppend(front, back);
      assert s[LeadingSpaces(s)..] == [];
    } else {
      LeadingSpacesAppend(front, r + back);
      assert s[|front|..] == r + back;
      TrailingSpacesAppend(r, back);
      assert (r + back)[..|r|] == r;
    }
  }

  lemma Regroup(p: string, a: string, r: string, b: string, q: string)
    ensures p + (a + (r + b)) + q == (p + a) + (r + (b + q))
  {
  }

  /** Whitespace added around a string is stripped away with its own. */
  lemma StripAround(p: string, m: string, q: string)
    requires AllSpace(p) && AllSpace(q)
    ensures Strip(p + m + q) == Strip(m)
  {
    var lead, trail := StripParts(m);
    StripShape(m);
    AllSpaceAppend(p, lead);
    AllSpaceAppend(trail, q);
    Regroup(p, lead, Strip(m), trail, q);
    StripFramed(p + lead, Strip(m), trail + q);
  }

  /** Trailing whitespace added to a string is stripped away. */
  lemma StripAppendSpace(m: string, q: string)
    requires AllSpace(q)
    ensures Strip(m + q) == Strip(m)
  {
    assert [] + m + q == m + q;
    StripAround([], m, q);
  }

  lemma SpaceFree(s: string, c: char)
    requires AllSpace(s) && !IsSpace(c)
    ensures c !in s
  {
    forall j | 0 <= j < |s| ensures s[j] != c {
      assert IsSpace(s[j]);
    }
  }

  lemma StripAllFirst(a: string, b: string, rest: seq<string>)
    requires Strip(a) == Strip(b)
    ensures StripAll([a] + rest) == StripAll([b] + rest)
  {
    StripAllAppend([a], rest);
    StripAllAppend([b], rest);
  }

  /** Lists that differ only by whitespace added to the last piece strip
      to the same list. */
  lemma StripAllLastSpace(longer: seq<string>, pieces: seq<string>, q: string)
    requires AllSpace(q)
    requires |longer| == |pieces| >= 1
    requires forall i :: 0 <= i < |pieces| - 1 ==> longer[i] == pieces[i]
    requires longer[|pieces| - 1] == pieces[|pieces| - 1] + q
    ensures StripAll(longer) == StripAll(pieces)
  {
    StripAppendSpace(pieces[|pieces| - 1], q);
    forall i | 0 <= i < |pieces| ensures StripAll(longer)[i] == StripAll(pieces)[i] {
    }
  }

  /** Whitespace in front of a string on a non-whitespace separator only
      reaches the first piece, where stripping removes it. */
  lemma StripSplitPrepend(p: string, t: string, sep: char)
    requires AllSpace(p) && !IsSpace(sep)
    ensures StripAll(Split(p + t, sep)) == StripAll(Split(t, sep))
  {
    SpaceFree(p, sep);
    SplitPrepend(p, t, sep);
    var pieces := Split(t, sep);
    var first, rest := pieces[0], pieces[1..];
    assert pieces == [first] + rest;
    assert p + first + [] == p + first;
    StripAround(p, first, []);
    StripAllFirst(p + first, first, rest);
  }

  /** Whitespace after a string on a non-whitespace separator only reaches
      the last piece, where stripping removes it. */
  lemma StripSplitAppend(t: string, q: string, sep: char)
    requires AllSpace(q) && !IsSpace(sep)
    ensures StripAll(Split(t + q, sep)) == StripAll(Split(t, sep))
  {
    SpaceFree(q, sep);
    SplitAppend(t, q, sep);
    StripAllLastSpace(Split(t + q, sep), Split(t, sep), q);
  }

  /** Splitting a stripped string on a non-whitespace separator gives the
      same pieces, once each piece is stripped, as splitting the string. */
  lemma SplitStrip(s: string, sep: char)
    requires !IsSpace(sep)
    ensures StripAll(Split(Strip(s), sep)) == StripAll(Split(s, sep))
  {
    var front, back := StripParts(s);
    var r := Strip(s);
    StripSplitPrepend(front, r + back, sep);
    StripSplitAppend(r, back, sep);
  }

  /** Stripping adds no character. */
  lemma StripWithin(s: string, c: char)
    ensures c in Strip(s) ==> c in s
  {
    var r := Strip(s);
    var i := LeadingSpaces(s);
    StripShape(s);
    if c in r {
      var j :| 0 <= j < |r| && r[j] == c;
      assert s[i + j] == c;
    }
  }

  /** Stripping twice is stripping once. */
  lemma StripIdempotent(s: string)
    ensures Strip(Strip(s)) == Strip(s)
  {
    var r := Strip(s);
    StripShape(s);
    if r != [] {
      assert LeadingSpaces(r) == 0;
      assert TrailingSpaces(r) == 0;
    }
  }

  function LowerChar(c: char): (d: char)
  {
    if 'A' <= c <= 'Z' then (c as int - 'A' as int + 'a' as int) as char else c
  }

  /** `s.lower()` for ASCII letters: same length, every upper-case letter
      replaced by its lower-case partner, every other character kept. */
  function Lower(s: string): (r: string)
    ensures |r| == |s|
    ensures forall i :: 0 <= i < |s| ==> r[i] == LowerChar(s[i])
    ensures forall i :: 0 <= i < |r| ==> !('A' <= r[i] <= 'Z')
  {
    if s == [] then [] else [LowerChar(s[0])] + Lower(s[1..])
  }

  lemma LowerKeeps(s: string, c: char)
    requires !('A' <= c <= 'Z') && !('a' <= c <= 'z')
    ensures c in Lower(s) <==> c in s
  {
    var r := Lower(s);
    if c in s {
      var i :| 0 <= i < |s| && s[i] == c;
      assert r[i] == c;
    }
    if c in r {
      var i :| 0 <= i < |r| && r[i] == c;
      assert s[i] == c;
    }
  }

  /** Map `Strip` over a list, as the comprehensions `[x.strip() for x in xs]`. */
  function StripAll(xs: seq<string>): (r: seq<string>)
    ensures |r| == |xs|
    ensures forall i :: 0 <= i < |xs| ==> r[i] == Strip(xs[i])
  {
    if xs == [] then [] else [Strip(xs[0])] + StripAll(xs[1..])
  }

  lemma StripAllAppend(a: seq<string>, b: seq<string>)
    ensures StripAll(a + b) == StripAll(a) + StripAll(b)
  {
    forall i | 0 <= i < |a + b| ensures StripAll(a + b)[i] == (StripAll(a) + StripAll(b))[i] {
      if i < |a| {
        assert (a + b)[i] == a[i];
      } else {
        assert (a + b)[i] == b[i - |a|];
      }
    }
  }

  lemma StripAllIdempotent(xs: seq<string>)
    ensures StripAll(StripAll(xs)) == StripAll(xs)
  {
    forall i | 0 <= i < |xs| ensures StripAll(StripAll(xs))[i] == StripAll(xs)[i] {
      StripIdempotent(xs[i]);
    }
  }

  /** `[x.strip().lower() for x in xs]`. */
  function StripLowerAll(xs: seq<string>): (r: seq<string>)
    ensures |r| == |xs|
    ensures forall i :: 0 <= i < |xs| ==> r[i] == Lower(Strip(xs[i]))
  {
    if xs == [] then [] else [Lower(Strip(xs[0]))] + StripLowerAll(xs[1..])
  }
}
