/** The string operations the operator relies on: strings.SplitN, strings.Split, strings.Join,
    strings.TrimSpace and sort.Strings, each with the laws its callers need. */
module Text {

  function IndexOf(s: string, c: char): (i: nat)
    ensures i <= |s|
    ensures forall j :: 0 <= j < i ==> s[j] != c
    ensures i < |s| ==> s[i] == c
    ensures i == |s| <==> c !in s
  {
    if s == [] || s[0] == c then 0 else 1 + IndexOf(s[1..], c)
  }

  /** strings.SplitN with a one-character separator: at most n pieces, the last one unsplit. */
  function SplitN(s: string, c: char, n: nat): (parts: seq<string>)
    requires n >= 1
    ensures 1 <= |parts| <= n
    ensures forall i :: 0 <= i < |parts| - 1 ==> c !in parts[i]
    decreases n
  {
    var i := IndexOf(s, c);
    if n == 1 || i == |s| then [s] else [s[..i]] + SplitN(s[i + 1..], c, n - 1)
  }

  /** strings.Split with a one-character separator. */
  function Split(s: string, c: char): (parts: seq<string>)
    ensures |parts| >= 1
    ensures forall i :: 0 <= i < |parts| ==> c !in parts[i]
    decreases |s|
  {
    var i := IndexOf(s, c);
    if i == |s| then [s] else [s[..i]] + Split(s[i + 1..], c)
  }

  /** strings.Join with a one-character separator. */
  function Join(parts: seq<string>, c: char): string {
    if |parts| == 0 then ""
    else if |parts| == 1 then parts[0]
    else parts[0] + [c] + Join(parts[1..], c)
  }

  /** The first separator of a + c + b is the one in the middle when a has none. */
  lemma IndexOfMiddle(a: string, c: char, b: string)
    requires c !in a
    ensures IndexOf(a + [c] + b, c) == |a|
  {
    var s := a + [c] + b;
    var i := IndexOf(s, c);
    assert s[|a|] == c;
    assert forall j :: 0 <= j < |a| ==> s[j] == a[j];
  }

  lemma SplitNMiddle(a: string, c: char, b: string, n: nat)
    requires c !in a && n >= 2
    ensures SplitN(a + [c] + b, c, n) == [a] + SplitN(b, c, n - 1)
  {
    IndexOfMiddle(a, c, b);
    var s := a + [c] + b;
    assert s[..|a|] == a && s[|a| + 1..] == b;
  }

  lemma SplitMiddle(a: string, c: char, b: string)
    requires c !in a
    ensures Split(a + [c] + b, c) == [a] + Split(b, c)
  {
    IndexOfMiddle(a, c, b);
    var s := a + [c] + b;
    assert s[..|a|] == a && s[|a| + 1..] == b;
  }

  lemma SplitNOne(s: string, c: char)
    ensures SplitN(s, c, 1) == [s]
  {
  }

  lemma SplitNWhole(s: string, c: char, n: nat)
    requires c !in s && n >= 1
    ensures SplitN(s, c, n) == [s]
  {
  }

  lemma JoinCons(head: string, rest: seq<string>, c: char)
    requires |rest| >= 1
    ensures Join([head] + rest, c) == head + [c] + Join(rest, c)
  {
    assert ([head] + rest)[1..] == rest;
  }

  /** Splitting loses nothing: the pieces joined again are the text. */
  lemma {:induction false} JoinSplitN(s: string, c: char, n: nat)
    requires n >= 1
    ensures Join(SplitN(s, c, n), c) == s
    decreases n
  {
    var i := IndexOf(s, c);
    if n > 1 && i < |s| {
      JoinSplitN(s[i + 1..], c, n - 1);
      JoinCons(s[..i], SplitN(s[i + 1..], c, n - 1), c);
      CutAt(s, i);
    }
  }

  lemma CutAt(s: string, i: nat)
    requires i < |s|
    ensures s[..i] + [s[i]] + s[i + 1..] == s
  {
  }

  /** A non-empty list of separator-free pieces survives join and split. */
  lemma {:induction false} SplitJoin(parts: seq<string>, c: char)
    requires |parts| >= 1
    requires forall i :: 0 <= i < |parts| ==> c !in parts[i]
    ensures Split(Join(parts, c), c) == parts
  {
    if |parts| == 1 {
      assert parts == [parts[0]];
    } else {
      var head, tail := parts[0], parts[1..];
      SplitJoin(tail, c);
      SplitMiddle(head, c, Join(tail, c));
      JoinCons(head, tail, c);
      assert parts == [head] + tail;
    }
  }

  // ----- white space -----

  /** unicode.IsSpace, the test strings.TrimSpace applies. */
  predicate IsSpace(c: char) {
    var n := c as int;
    || 0x09 <= n <= 0x0d || n == 0x20 || n == 0x85 || n == 0xa0 || n == 0x1680
    || 0x2000 <= n <= 0x200a || n == 0x2028 || n == 0x2029 || n == 0x202f || n == 0x205f || n == 0x3000
  }

  predicate AllSpace(s: string) {
    forall i :: 0 <= i < |s| ==> IsSpace(s[i])
  }

  /** Text that TrimSpace leaves alone: it is not empty and neither end is white space. */
  predicate Solid(s: string) {
    s != "" && !IsSpace(s[0]) && !IsSpace(s[|s| - 1])
  }

  function TrimLeft(s: string): string {
    if s != "" && IsSpace(s[0]) then TrimLeft(s[1..]) else s
  }

  function TrimRight(s: string): string {
    if s != "" && IsSpace(s[|s| - 1]) then TrimRight(s[..|s| - 1]) else s
  }

  /** strings.TrimSpace. */
  function TrimSpace(s: string): string {
    TrimRight(TrimLeft(s))
  }

  lemma {:induction false} TrimLeftPad(pad: string, s: string)
    requires AllSpace(pad) && s != "" && !IsSpace(s[0])
    ensures TrimLeft(pad + s) == s
  {
    if pad == "" {
      assert pad + s == s;
    } else {
      TrimLeftPad(pad[1..], s);
      assert (pad + s)[1..] == pad[1..] + s;
    }
  }

  lemma {:induction false} TrimRightPad(s: string, pad: string)
    requires AllSpace(pad) && s != "" && !IsSpace(s[|s| - 1])
    ensures TrimRight(s + pad) == s
  {
    if pad == "" {
      assert s + pad == s;
    } else {
      var init := pad[..|pad| - 1];
      TrimRightPad(s, init);
      assert (s + pad)[..|s + pad| - 1] == s + init;
    }
  }

  /** Trimming removes exactly the padding around solid text. */
  lemma TrimPadded(left: string, s: string, right: string)
    requires AllSpace(left) && Solid(s) && AllSpace(right)
    ensures TrimSpace(left + s + right) == s
  {
    assert left + s + right == left + (s + right);
    TrimLeftPad(left, s + right);
    TrimRightPad(s, right);
  }

  // ----- order -----

  /** The order sort.Strings uses: lexicographic by character. */
  predicate Before(a: string, b: string) {
    if b == "" then false
    else if a == "" then true
    else a[0] < b[0] || (a[0] == b[0] && Before(a[1..], b[1..]))
  }

  lemma {:induction false} BeforeTrichotomy(a: string, b: string)
    ensures a == b || Before(a, b) || Before(b, a)
    ensures !(Before(a, b) && Before(b, a)) && !Before(a, a)
  {
    if a != "" && b != "" {
      BeforeTrichotomy(a[1..], b[1..]);
      BeforeTrichotomy(a[1..], a[1..]);
      assert a == [a[0]] + a[1..] && b == [b[0]] + b[1..];
    } else if a != "" {
      BeforeTrichotomy(a[1..], a[1..]);
    }
  }

  lemma {:induction false} BeforeTransitive(a: string, b: string, c: string)
    requires Before(a, b) && Before(b, c)
    ensures Before(a, c)
  {
    if a != "" && a[0] == b[0] && b[0] == c[0] {
      BeforeTransitive(a[1..], b[1..], c[1..]);
    }
  }

  predicate StrictlySorted(xs: seq<string>) {
    forall i, j :: 0 <= i < j < |xs| ==> Before(xs[i], xs[j])
  }

  function Elements(xs: seq<string>): set<string> {
    set x | x in xs
  }

  lemma NoElements(xs: seq<string>)
    ensures Elements(xs) == {} <==> xs == []
  {
    if xs != [] {
      assert xs[0] in Elements(xs);
    }
  }

  /** A set of strings has one strictly sorted list. */
  lemma {:induction false} SortedListIsUnique(xs: seq<string>, ys: seq<string>)
    requires StrictlySorted(xs) && StrictlySorted(ys)
    requires Elements(xs) == Elements(ys)
    ensures xs == ys
  {
    NoElements(xs);
    NoElements(ys);
    if xs != [] {
      assert xs[0] in Elements(xs);
      var j :| 0 <= j < |ys| && ys[j] == xs[0];
      assert ys[0] in Elements(xs);
      var i :| 0 <= i < |xs| && xs[i] == ys[0];
      BeforeTrichotomy(xs[0], ys[0]);
      assert xs[0] == ys[0];
      forall x ensures x in Elements(xs[1..]) <==> x in Elements(ys[1..]) {
        BeforeTrichotomy(x, xs[0]);
        TailElements(xs, x);
        TailElements(ys, x);
      }
      SortedListIsUnique(xs[1..], ys[1..]);
      assert xs == [xs[0]] + xs[1..] && ys == [ys[0]] + ys[1..];
    }
  }

  lemma TailElements(xs: seq<string>, x: string)
    requires xs != [] && StrictlySorted(xs)
    ensures x in Elements(xs[1..]) <==> x in Elements(xs) && x != xs[0]
  {
    BeforeTrichotomy(x, x);
    if x in xs[1..] {
      var i :| 0 <= i < |xs| - 1 && xs[1..][i] == x;
      assert xs[i + 1] == x && Before(xs[0], xs[i + 1]);
    }
    if x in xs && x != xs[0] {
      var i :| 0 <= i < |xs| && xs[i] == x;
      assert xs[1..][i - 1] == x;
    }
  }

  /** Inserting a new string into a strictly sorted list. */
  function Insert(xs: seq<string>, x: string): (r: seq<string>) {
    if xs == [] || Before(x, xs[0]) then [x] + xs else [xs[0]] + Insert(xs[1..], x)
  }

  lemma {:induction false} InsertSorts(xs: seq<string>, x: string)
    requires StrictlySorted(xs) && x !in xs
    ensures StrictlySorted(Insert(xs, x))
    ensures Elements(Insert(xs, x)) == Elements(xs) + {x}
  {
    if xs == [] {
    } else if Before(x, xs[0]) {
      forall i | 0 <= i < |xs| ensures Before(x, xs[i]) {
        if i > 0 {
          BeforeTransitive(x, xs[0], xs[i]);
        }
      }
      assert Elements([x] + xs) == Elements(xs) + {x};
    } else {
      InsertSorts(xs[1..], x);
      BeforeTrichotomy(x, xs[0]);
      var rest := Insert(xs[1..], x);
      forall i | 0 <= i < |rest| ensures Before(xs[0], rest[i]) {
        assert rest[i] in Elements(rest);
      }
      assert xs == [xs[0]] + xs[1..];
      assert Elements([xs[0]] + rest) == Elements(xs) + {x};
    }
  }

  /** sort.Strings. */
  function Sorted(xs: seq<string>): seq<string> {
    if xs == [] then [] else Insert(Sorted(xs[..|xs| - 1]), xs[|xs| - 1])
  }

  ghost predicate Distinct(xs: seq<string>) {
    forall i, j :: 0 <= i < j < |xs| ==> xs[i] != xs[j]
  }

  lemma {:induction false} SortedSorts(xs: seq<string>)
    requires Distinct(xs)
    ensures StrictlySorted(Sorted(xs)) && Elements(Sorted(xs)) == Elements(xs)
  {
    if xs != [] {
      var init, last := xs[..|xs| - 1], xs[|xs| - 1];
      SortedSorts(init);
      assert xs == init + [last];
      assert last !in Elements(init);
      InsertSorts(Sorted(init), last);
      assert Elements(xs) == Elements(init) + {last};
    }
  }

  /** The order is ascending: the first character that differs decides, and a prefix comes first. */
  lemma {:induction false} FirstDifferenceDecides(prefix: string, c: char, d: char, s: string, t: string)
    ensures c < d ==> Before(prefix + [c] + s, prefix + [d] + t)
    ensures Before(prefix, prefix + [c] + s)
  {
    var a, b := prefix + [c] + s, prefix + [d] + t;
    if prefix == "" {
      assert a[0] == c && b[0] == d;
    } else {
      FirstDifferenceDecides(prefix[1..], c, d, s, t);
      assert a[1..] == prefix[1..] + [c] + s && b[1..] == prefix[1..] + [d] + t;
    }
  }

  /** Among the ASCII characters the white space is tab, line feed, vertical tab, form feed, carriage
      return and space. */
  lemma AsciiSpaces(c: char)
    requires c as int < 0x80
    ensures IsSpace(c) <==> c as int in {9, 10, 11, 12, 13, 32}
  {
  }
}
