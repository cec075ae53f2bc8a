/** Definitions shared by every component: an optional value, concatenation of
    a sequence of pieces, order-preserving filtering, and JavaScript's
    String.prototype.trim. */
module Common {

  datatype Option<+T> = None | Some(value: T)

  /** `o ?? default`. */
  function GetOr<T>(o: Option<T>, default: T): T
  {
    match o
    case Some(v) => v
    case None => default
  }

  /** The pieces of `ss` joined end to end (JavaScript's `join('')`).  It is
      taken from the right, so that appending one more piece unfolds in one
      step. */
  function Concat<T>(ss: seq<seq<T>>): seq<T>
  {
    if ss == [] then [] else Concat(ss[..|ss| - 1]) + ss[|ss| - 1]
  }

  lemma {:induction false} ConcatAppend<T>(a: seq<seq<T>>, b: seq<seq<T>>)
    ensures Concat(a + b) == Concat(a) + Concat(b)
    decreases |b|
  {
    if b == [] {
      assert a + b == a;
    } else {
      var init, last := b[..|b| - 1], b[|b| - 1];
      SplitLast(b);
      SplitLast(a + b);
      assert (a + b)[..|a + b| - 1] == a + init;
      ConcatAppend(a, init);
      AppendAssoc(Concat(a), Concat(init), last);
    }
  }

  lemma {:induction false} SplitLast<T>(s: seq<seq<T>>)
    requires s != []
    ensures Concat(s) == Concat(s[..|s| - 1]) + s[|s| - 1]
  {
  }

  lemma {:induction false} AppendAssoc<T>(a: seq<T>, b: seq<T>, c: seq<T>)
    ensures (a + b) + c == a + (b + c)
  {
  }

  lemma {:induction false} ConcatCons<T>(x: seq<T>, rest: seq<seq<T>>)
    ensures Concat([x] + rest) == x + Concat(rest)
  {
    ConcatAppend([x], rest);
    assert [x][..0] == [];
  }

  /** A concatenation of non-empty pieces is at least as long as the number of
      pieces. */
  lemma {:induction false} ConcatOfNonEmptyIsLong<T>(ss: seq<seq<T>>)
    requires forall i :: 0 <= i < |ss| ==> ss[i] != []
    ensures |Concat(ss)| >= |ss|
    ensures Concat(ss) == [] <==> ss == []
    decreases |ss|
  {
    if ss != [] {
      ConcatOfNonEmptyIsLong(ss[..|ss| - 1]);
    }
  }

  /** The elements of `s` that satisfy `p`, in their original order (the
      JavaScript array `filter`). */
  function Filter<T>(s: seq<T>, p: T -> bool): (r: seq<T>)
    ensures |r| <= |s|
    ensures forall i :: 0 <= i < |r| ==> p(r[i])
  {
    if s == [] then []
    else Filter(s[..|s| - 1], p) + (if p(s[|s| - 1]) then [s[|s| - 1]] else [])
  }

  /** The positions in `s` of the elements `Filter(s, p)` keeps. */
  function KeptPositions<T>(s: seq<T>, p: T -> bool): (idx: seq<nat>)
    ensures |idx| == |Filter(s, p)|
  {
    if s == [] then []
    else
      var n := |s| - 1;
      KeptPositions(s[..n], p) + (if p(s[n]) then [n] else [])
  }

  /** The positions kept from a prefix are the first of those kept from the
      whole sequence. */
  lemma {:induction false} KeptPositionsOfPrefix<T>(s: seq<T>, p: T -> bool, m: nat)
    requires m <= |s|
    ensures KeptPositions(s[..m], p) <= KeptPositions(s, p)
    decreases |s| - m
  {
    if m < |s| {
      var n := |s| - 1;
      KeptPositionsOfPrefix(s[..n], p, m);
      assert s[..n][..m] == s[..m];
    } else {
      assert s[..m] == s;
    }
  }

  /** The kept positions are strictly increasing, so the filter preserves
      relative order; the element at each is the one the filter keeps; and
      every position whose element satisfies `p` is among them. */
  lemma {:induction false} KeptPositionsSpec<T>(s: seq<T>, p: T -> bool)
    ensures var idx := KeptPositions(s, p);
      (forall j :: 0 <= j < |idx| ==> idx[j] < |s| && Filter(s, p)[j] == s[idx[j]]) &&
      (forall j, k :: 0 <= j < k < |idx| ==> idx[j] < idx[k]) &&
      (forall i :: 0 <= i < |s| && p(s[i]) ==> i in idx)
  {
    KeptSelect(s, p);
    KeptIncreasing(s, p);
    KeptCovers(s, p);
  }

  lemma {:induction false} KeptSelect<T>(s: seq<T>, p: T -> bool)
    ensures forall j :: 0 <= j < |KeptPositions(s, p)| ==>
      KeptPositions(s, p)[j] < |s| && Filter(s, p)[j] == s[KeptPositions(s, p)[j]]
    decreases |s|
  {
    if s != [] {
      var n := |s| - 1;
      KeptSelect(s[..n], p);
      var init, idx := KeptPositions(s[..n], p), KeptPositions(s, p);
      var last := if p(s[n]) then [s[n]] else [];
      assert Filter(s, p) == Filter(s[..n], p) + last;
      forall j | 0 <= j < |idx|
        ensures idx[j] < |s| && Filter(s, p)[j] == s[idx[j]]
      {
        if j < |init| {
          assert idx[j] == init[j] && s[..n][init[j]] == s[init[j]];
        }
      }
    }
  }

  lemma {:induction false} KeptIncreasing<T>(s: seq<T>, p: T -> bool)
    ensures forall j :: 0 <= j < |KeptPositions(s, p)| ==> KeptPositions(s, p)[j] < |s|
    ensures forall j, k :: 0 <= j < k < |KeptPositions(s, p)| ==> KeptPositions(s, p)[j] < KeptPositions(s, p)[k]
    decreases |s|
  {
    if s != [] {
      var n := |s| - 1;
      KeptIncreasing(s[..n], p);
      var init, idx := KeptPositions(s[..n], p), KeptPositions(s, p);
      assert forall j :: 0 <= j < |init| ==> idx[j] == init[j];
    }
  }

  lemma {:induction false} KeptCovers<T>(s: seq<T>, p: T -> bool)
    ensures forall i :: 0 <= i < |s| && p(s[i]) ==> i in KeptPositions(s, p)
    decreases |s|
  {
    if s != [] {
      var n := |s| - 1;
      KeptCovers(s[..n], p);
      forall i | 0 <= i < n
        ensures s[..n][i] == s[i]
      {
      }
    }
  }

  /** Filtering distributes over concatenation. */
  lemma {:induction false} FilterAppend<T>(a: seq<T>, b: seq<T>, p: T -> bool)
    ensures Filter(a + b, p) == Filter(a, p) + Filter(b, p)
    decreases |b|
  {
    if b == [] {
      assert a + b == a;
    } else {
      var n := |b| - 1;
      assert (a + b)[..|a + b| - 1] == a + b[..n];
      FilterAppend(a, b[..n], p);
    }
  }

  /** A filter that keeps every element is the identity. */
  lemma {:induction false} FilterKeepsAll<T>(s: seq<T>, p: T -> bool)
    requires forall i :: 0 <= i < |s| ==> p(s[i])
    ensures Filter(s, p) == s
    decreases |s|
  {
    if s != [] {
      FilterKeepsAll(s[..|s| - 1], p);
    }
  }

  /** A filter that keeps no element is empty. */
  lemma {:induction false} FilterKeepsNone<T>(s: seq<T>, p: T -> bool)
    requires forall i :: 0 <= i < |s| ==> !p(s[i])
    ensures Filter(s, p) == []
    decreases |s|
  {
    if s != [] {
      FilterKeepsNone(s[..|s| - 1], p);
    }
  }

  /** An element is in the filtered sequence exactly when it is in the
      sequence and satisfies the predicate. */
  lemma {:induction false} FilterMembership<T>(s: seq<T>, p: T -> bool, x: T)
    ensures x in Filter(s, p) <==> x in s && p(x)
    decreases |s|
  {
    if s != [] {
      var n := |s| - 1;
      FilterMembership(s[..n], p, x);
      assert s == s[..n] + [s[n]];
    }
  }

  lemma {:induction false} SliceOfAppend<T>(a: seq<T>, b: seq<T>, i: nat, j: nat)
    requires i <= j <= |a|
    ensures (a + b)[i..j] == a[i..j]
  {
  }

  lemma {:induction false} PrefixOfAppend<T>(a: seq<T>, b: seq<T>, k: nat)
    requires k <= |a|
    ensures (a + b)[..k] == a[..k]
  {
  }

  lemma {:induction false} SuffixOfAppend<T>(a: seq<T>, b: seq<T>)
    ensures (a + b)[|a|..] == b
  {
  }

  lemma {:induction false} PrefixSnoc<T>(s: seq<T>, n: nat)
    requires n < |s|
    ensures s[..n + 1][..n] == s[..n] && s[..n + 1][n] == s[n]
  {
  }

  lemma {:induction false} SplitAt<T>(s: seq<T>, k: nat)
    requires k <= |s|
    ensures s[..k] + s[k..] == s
  {
  }

  lemma {:induction false} SnocPrefix<T>(s: seq<T>)
    requires s != []
    ensures s == s[..|s| - 1] + [s[|s| - 1]]
  {
  }

  lemma {:induction false} FullPrefix<T>(s: seq<T>)
    ensures s[..|s|] == s
  {
  }

  /** The characters JavaScript's `trim` removes: WhiteSpace (tab, vertical
      tab, form feed, space, no-break space, the byte order mark and the
      Unicode space separators) and LineTerminator (line feed, carriage
      return, line and paragraph separator). */
  predicate IsWhitespace(c: char)
  {
    var n := c as int;
    n == 0x09 || n == 0x0A || n == 0x0B || n == 0x0C || n == 0x0D || n == 0x20 ||
    n == 0xA0 || n == 0x1680 || (0x2000 <= n <= 0x200A) ||
    n == 0x2028 || n == 0x2029 || n == 0x202F || n == 0x205F || n == 0x3000 || n == 0xFEFF
  }

  /** The number of whitespace characters `s` starts with. */
  function LeadingWhitespace(s: string): (k: nat)
    ensures k <= |s|
  {
    if s == [] || !IsWhitespace(s[0]) then 0 else 1 + LeadingWhitespace(s[1..])
  }

  lemma {:induction false} LeadingWhitespaceSpec(s: string)
    ensures forall i :: 0 <= i < LeadingWhitespace(s) ==> IsWhitespace(s[i])
    ensures LeadingWhitespace(s) < |s| ==> !IsWhitespace(s[LeadingWhitespace(s)])
    decreases |s|
  {
    if s != [] && IsWhitespace(s[0]) {
      LeadingWhitespaceSpec(s[1..]);
    }
  }

  /** The position where the trailing run of whitespace of `s` begins. */
  function TrailingStart(s: string): (k: nat)
    ensures k <= |s|
  {
    if s == [] || !IsWhitespace(s[|s| - 1]) then |s| else TrailingStart(s[..|s| - 1])
  }

  lemma {:induction false} TrailingStartSpec(s: string)
    ensures forall i :: TrailingStart(s) <= i < |s| ==> IsWhitespace(s[i])
    ensures TrailingStart(s) > 0 ==> !IsWhitespace(s[TrailingStart(s) - 1])
    decreases |s|
  {
    if s != [] && IsWhitespace(s[|s| - 1]) {
      TrailingStartSpec(s[..|s| - 1]);
    }
  }

  /** JavaScript's `s.trim()`: `s` without its leading and trailing
      whitespace. */
  function Trim(s: string): (r: string)
  {
    var t := s[LeadingWhitespace(s)..];
    t[..TrailingStart(t)]
  }

  /** A string trims to empty exactly when every character is whitespace;
      otherwise the result starts and ends with a non-whitespace character.
      The result is a slice of the input with only whitespace cut off on
      either side. */
  lemma {:induction false} TrimSpec(s: string)
    ensures Trim(s) == [] <==> forall i :: 0 <= i < |s| ==> IsWhitespace(s[i])
    ensures Trim(s) != [] ==> !IsWhitespace(Trim(s)[0]) && !IsWhitespace(Trim(s)[|Trim(s)| - 1])
    ensures exists a, b ::
              0 <= a <= b <= |s| && Trim(s) == s[a..b] &&
              (forall i :: 0 <= i < a ==> IsWhitespace(s[i])) &&
              (forall i :: b <= i < |s| ==> IsWhitespace(s[i]))
  {
    var a := LeadingWhitespace(s);
    var t := s[a..];
    var b := TrailingStart(t);
    LeadingWhitespaceSpec(s);
    TrailingStartSpec(t);
    assert Trim(s) == s[a..a + b];
    assert forall i :: a + b <= i < |s| ==> IsWhitespace(s[i]) by {
      forall i | a + b <= i < |s|
        ensures IsWhitespace(s[i])
      {
        assert s[i] == t[i - a];
      }
    }
    if Trim(s) == [] {
      assert b == 0 && a == |s|;
    } else {
      assert !IsWhitespace(t[0]);
    }
  }

  /** Trimming twice is trimming once. */
  lemma {:induction false} TrimIdempotent(s: string)
    ensures Trim(Trim(s)) == Trim(s)
  {
    TrimSpec(s);
    var r := Trim(s);
    if r != [] {
      assert LeadingWhitespace(r) == 0;
      assert r[0..] == r;
      assert TrailingStart(r) == |r|;
    }
  }
}
