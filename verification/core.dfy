// Stock datatypes and the one sorting function shared by the model.

module Core {
  datatype Option<+T> = None | Some(value: T)

  datatype Result<+T, +E> = Ok(value: T) | Err(error: E)

  type I32 = v: int | -0x8000_0000 <= v <= 0x7fff_ffff
  type U32 = v: int | 0 <= v <= 0xffff_ffff

  const I32_MAX: int := 0x7fff_ffff
  const U32_MAX: int := 0xffff_ffff

  function Min(a: int, b: int): int {
    if a <= b then a else b
  }

  function Max(a: int, b: int): int {
    if a >= b then a else b
  }

  /** The first `n` elements, or everything when there are fewer. */
  function Take<T>(s: seq<T>, n: nat): seq<T> {
    if n < |s| then s[..n] else s
  }

  /** Offset of the first `c`, or the length when there is none. */
  function Find(s: string, c: char): (n: nat)
    ensures n <= |s| && c !in s[..n] && (n < |s| ==> s[n] == c)
  {
    if s == "" || s[0] == c then 0
    else
      assert s[..1 + Find(s[1..], c)] == [s[0]] + s[1..][..Find(s[1..], c)];
      1 + Find(s[1..], c)
  }

  function Last<T>(s: seq<T>): T
    requires s != []
  {
    s[|s| - 1]
  }

  function Front<T>(s: seq<T>): seq<T>
    requires s != []
  {
    s[..|s| - 1]
  }

  /** Bytes of a character in UTF-8. */
  function Utf8Len(c: char): nat {
    var v := c as int;
    if v < 0x80 then 1 else if v < 0x800 then 2 else if v < 0x10000 then 3 else 4
  }

  function ByteLen(s: string): nat { if s == "" then 0 else ByteLen(Front(s)) + Utf8Len(Last(s)) }

  lemma {:induction false} ByteLenAppend(a: string, b: string)
    ensures ByteLen(a + b) == ByteLen(a) + ByteLen(b)
  {
    if b == "" {
      assert a + b == a;
    } else {
      assert Front(a + b) == a + Front(b);
      ByteLenAppend(a, Front(b));
    }
  }

  function LowerChar(c: char): char {
    if 'A' <= c <= 'Z' then (c as int + 32) as char else c
  }

  /** Unicode case folding is a parameter of the model. */
  type Folding = string -> string

  predicate Contains(haystack: string, needle: string) {
    needle <= haystack || (haystack != "" && Contains(haystack[1..], needle))
  }

  lemma {:induction false} ContainsIff(haystack: string, needle: string)
    ensures Contains(haystack, needle) <==> exists i :: 0 <= i <= |haystack| && needle <= haystack[i..]
  {
    if needle <= haystack {
      assert haystack[0..] == haystack;
    } else if haystack != "" {
      ContainsIff(haystack[1..], needle);
      if i :| 0 <= i <= |haystack[1..]| && needle <= haystack[1..][i..] {
        assert haystack[1..][i..] == haystack[i + 1..];
      }
      if i :| 0 <= i <= |haystack| && needle <= haystack[i..] {
        assert i > 0 && haystack[1..][i - 1..] == haystack[i..];
      }
    }
  }

  /** The text after the last dot. */
  function Tail(s: string): string {
    if s == "" || Last(s) == '.' then "" else Tail(Front(s)) + [Last(s)]
  }

  function Digit(d: nat): char
    requires d < 10
  {
    ('0' as int + d) as char
  }

  function Decimal(n: nat): string {
    if n < 10 then [Digit(n)] else Decimal(n / 10) + [Digit(n % 10)]
  }

  /** The number a text of digits spells. */
  function Spelled(digits: string): int {
    if digits == "" then 0 else Spelled(Front(digits)) * 10 + (Last(digits) as int - '0' as int)
  }

  /** The decimal form of a number spells it, without leading zeros. */
  lemma {:induction false} DecimalSpells(n: nat)
    ensures forall c :: c in Decimal(n) ==> '0' <= c <= '9'
    ensures Spelled(Decimal(n)) == n && Decimal(n) != "" && (n > 0 ==> Decimal(n)[0] != '0')
  {
    if n < 10 {
      assert Front(Decimal(n)) == "" && Last(Decimal(n)) == Digit(n);
    } else {
      DecimalSpells(n / 10);
      assert Front(Decimal(n)) == Decimal(n / 10) && Last(Decimal(n)) == Digit(n % 10);
    }
  }

  lemma TailStep(s: string, c: char)
    ensures Tail(s + [c]) == if c == '.' then "" else Tail(s) + [c]
  {
    assert Front(s + [c]) == s && Last(s + [c]) == c;
  }

  /** The text behind the last dot. */
  lemma {:induction false} TailBehind(s: string, rest: string)
    requires '.' !in rest
    ensures Tail(s + "." + rest) == rest
    decreases |rest|
  {
    hide Tail;
    if rest == "" {
      TailStep(s, '.');
      assert s + "." + rest == s + ['.'];
    } else {
      var c := Last(rest);
      assert rest == Front(rest) + [c] && c in rest && forall x :: x in Front(rest) ==> x in rest;
      TailBehind(s, Front(rest));
      TailStep(s + "." + Front(rest), c);
      assert s + "." + rest == (s + "." + Front(rest)) + [c];
    }
  }

  /** All of it, without a dot. */
  lemma {:induction false} TailOfPlain(s: string)
    requires '.' !in s
    ensures Tail(s) == s
  {
    if s != "" {
      assert s == Front(s) + [Last(s)] && Last(s) in s && forall x :: x in Front(s) ==> x in s;
      TailOfPlain(Front(s));
    }
  }

  lemma {:induction false} FindAfter(a: string, c: char, b: string)
    requires c !in a
    ensures Find(a + [c] + b, c) == |a|
  {
    var s := a + [c] + b;
    if a != "" {
      assert s[0] == a[0];
      assert s[1..] == a[1..] + [c] + b;
      FindAfter(a[1..], c, b);
    }
  }

  function Reverse<T>(s: seq<T>): (r: seq<T>)
    ensures |r| == |s|
    ensures forall i :: 0 <= i < |s| ==> r[i] == s[|s| - 1 - i]
  {
    if s == [] then [] else Reverse(s[1..]) + [s[0]]
  }
}

/** `retain` and `rfind` over a vector, and how one looks through the other. */
module Selecting {
  import opened Core

  /** The elements that satisfy `p`, in order. */
  function Filter<T>(s: seq<T>, p: T -> bool): (r: seq<T>)
    ensures |r| <= |s|
  {
    if s == [] then []
    else if p(Last(s)) then Filter(Front(s), p) + [Last(s)]
    else Filter(Front(s), p)
  }

  /** The last element that satisfies `p`. */
  function LastMatch<T>(s: seq<T>, p: T -> bool): Option<T> {
    if s == [] then None else if p(Last(s)) then Some(Last(s)) else LastMatch(Front(s), p)
  }

  lemma {:induction false} FilterMembers<T>(s: seq<T>, p: T -> bool, x: T)
    ensures x in Filter(s, p) <==> x in s && p(x)
  {
    if s != [] {
      FilterMembers(Front(s), p, x);
      assert s == Front(s) + [Last(s)];
    }
  }

  lemma {:induction false} LastMatchIsLast<T>(s: seq<T>, p: T -> bool) returns (at: nat)
    ensures LastMatch(s, p).None? ==> forall i :: 0 <= i < |s| ==> !p(s[i])
    ensures LastMatch(s, p).Some? ==>
              at < |s| && s[at] == LastMatch(s, p).value && p(s[at]) && forall j :: at < j < |s| ==> !p(s[j])
  {
    if s == [] {
      at := 0;
    } else if p(Last(s)) {
      at := |s| - 1;
    } else {
      at := LastMatchIsLast(Front(s), p);
    }
  }

  /** `both` is `p` and `q` on the elements of `s`. */
  ghost predicate Conjoins<T>(s: seq<T>, p: T -> bool, q: T -> bool, both: T -> bool) {
    forall i :: 0 <= i < |s| ==> (both(s[i]) <==> p(s[i]) && q(s[i]))
  }

  /** Searching what was retained is searching everything with both conditions. */
  lemma {:induction false} LastMatchFilter<T>(s: seq<T>, keep: T -> bool, p: T -> bool, both: T -> bool)
    requires Conjoins(s, keep, p, both)
    ensures LastMatch(Filter(s, keep), p) == LastMatch(s, both)
  {
    if s != [] {
      LastMatchFilter(Front(s), keep, p, both);
      assert keep(Last(s)) ==> Front(Filter(s, keep)) == Filter(Front(s), keep);
    }
  }

  /** Retaining twice is retaining once with both conditions. */
  lemma {:induction false} FilterFilter<T>(s: seq<T>, p: T -> bool, q: T -> bool, both: T -> bool)
    requires Conjoins(s, p, q, both)
    ensures Filter(Filter(s, p), q) == Filter(s, both)
  {
    if s != [] {
      FilterFilter(Front(s), p, q, both);
      assert p(Last(s)) ==> Front(Filter(s, p)) == Filter(Front(s), p);
    }
  }

  /** `retain`. */
  method Retain<T>(s: seq<T>, p: T -> bool) returns (r: seq<T>)
    ensures r == Filter(s, p)
  {
    r := [];
    for i := 0 to |s|
      invariant r == Filter(s[..i], p)
    {
      assert Front(s[..i + 1]) == s[..i];
      if p(s[i]) {
        r := r + [s[i]];
      }
    }
    assert s[..|s|] == s;
  }

  /** `rfind`. */
  method RFind<T>(s: seq<T>, p: T -> bool) returns (r: Option<T>)
    ensures r == LastMatch(s, p)
  {
    assert s[..|s|] == s;
    for i := |s| downto 0
      invariant LastMatch(s[..i], p) == LastMatch(s, p)
    {
      assert Front(s[..i + 1]) == s[..i];
      if p(s[i]) {
        return Some(s[i]);
      }
    }
    return None;
  }
}

/** Library sorts (`sort_by`, `sort_by_key`), modelled as insertion by a total order. */
module Sorting {
  ghost predicate TotalOrder<T(!new)>(le: (T, T) -> bool) {
    && (forall a, b :: le(a, b) || le(b, a))
    && (forall a, b :: le(a, b) && le(b, a) ==> a == b)
    && (forall a, b, c :: le(a, b) && le(b, c) ==> le(a, c))
  }

  ghost predicate Sorted<T>(s: seq<T>, le: (T, T) -> bool) {
    forall i, j :: 0 <= i < j < |s| ==> le(s[i], s[j])
  }

  function Insert<T>(x: T, s: seq<T>, le: (T, T) -> bool): (r: seq<T>)
    ensures multiset(r) == multiset(s) + multiset{x}
  {
    if s == [] then [x]
    else if le(x, s[0]) then [x] + s
    else
      assert s == [s[0]] + s[1..];
      [s[0]] + Insert(x, s[1..], le)
  }

  function Sort<T>(s: seq<T>, le: (T, T) -> bool): (r: seq<T>)
    ensures multiset(r) == multiset(s)
  {
    if s == [] then []
    else
      assert s == [s[0]] + s[1..];
      Insert(s[0], Sort(s[1..], le), le)
  }

  lemma {:induction false} InsertSorted<T(!new)>(x: T, s: seq<T>, le: (T, T) -> bool)
    requires TotalOrder(le) && Sorted(s, le)
    ensures Sorted(Insert(x, s, le), le)
  {
    if s == [] || le(x, s[0]) {
    } else {
      var r := Insert(x, s[1..], le);
      InsertSorted(x, s[1..], le);
      forall j | 0 <= j < |r| ensures le(s[0], r[j]) {
        assert r[j] in multiset(r);
        assert r[j] == x || r[j] in s[1..];
      }
    }
  }

  lemma {:induction false} SortSorted<T(!new)>(s: seq<T>, le: (T, T) -> bool)
    requires TotalOrder(le)
    ensures Sorted(Sort(s, le), le)
  {
    if s != [] {
      SortSorted(s[1..], le);
      InsertSorted(s[0], Sort(s[1..], le), le);
    }
  }

  /** A total order leaves one way to arrange a bag of elements. */
  lemma {:induction false} SortedUnique<T(!new)>(s: seq<T>, t: seq<T>, le: (T, T) -> bool)
    requires TotalOrder(le) && Sorted(s, le) && Sorted(t, le)
    requires multiset(s) == multiset(t)
    ensures s == t
  {
    if s == [] {
      assert |t| == |multiset(t)| == 0;
    } else {
      assert s[0] in multiset(t) && t != [];
      SameHead(s, t, le);
      TailOf(s, le);
      TailOf(t, le);
      hide TotalOrder, Sorted;
      SortedUnique(s[1..], t[1..], le);
      assert s == [s[0]] + s[1..] && t == [t[0]] + t[1..];
    }
  }

  lemma SameHead<T(!new)>(s: seq<T>, t: seq<T>, le: (T, T) -> bool)
    requires TotalOrder(le) && Sorted(s, le) && Sorted(t, le)
    requires multiset(s) == multiset(t) && s != [] && t != []
    ensures s[0] == t[0]
  {
    assert s[0] in multiset(t) && t[0] in multiset(s);
  }

  lemma TailOf<T(!new)>(s: seq<T>, le: (T, T) -> bool)
    requires Sorted(s, le) && s != []
    ensures Sorted(s[1..], le) && multiset(s[1..]) == multiset(s) - multiset{s[0]}
  {
    assert s == [s[0]] + s[1..];
  }
}
