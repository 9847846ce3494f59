/**
 * Models of the Go standard-library string routines the socket-activation
 * decoder relies on: strconv.Atoi and strconv.Itoa for decimal integers, and
 * strings.IndexByte, strings.Count, strings.SplitN and strings.Join for a
 * single-character separator. Integers are unbounded, so Atoi's range error
 * is not modelled.
 */
module GoStrings {
  import opened Wrappers

  // ---------------------------------------------------------------------
  // strings.IndexByte, strings.Count, strings.Join, strings.SplitN
  // ---------------------------------------------------------------------

  /** Position of the first `c` in `s`, or -1 when `s` has none (see IndexByteFirst). */
  function IndexByte(s: string, c: char): (r: int)
    ensures -1 <= r < |s|
  {
    if |s| == 0 then -1
    else if s[0] == c then 0
    else
      var k := IndexByte(s[1..], c);
      if k == -1 then -1 else k + 1
  }

  /** IndexByte finds the first occurrence, and -1 exactly when there is none. */
  lemma {:induction false} IndexByteFirst(s: string, c: char)
    ensures IndexByte(s, c) == -1 <==> c !in s
    ensures 0 <= IndexByte(s, c) ==> s[IndexByte(s, c)] == c && c !in s[..IndexByte(s, c)]
  {
    if |s| > 0 && s[0] != c {
      IndexByteFirst(s[1..], c);
      assert s == [s[0]] + s[1..];
      var k := IndexByte(s[1..], c);
      if k >= 0 {
        assert s[..k + 1] == [s[0]] + s[1..][..k];
      }
    }
  }

  /** Number of occurrences of `c` in `s`. */
  function Count(s: string, c: char): nat
  {
    if |s| == 0 then 0
    else (if s[0] == c then 1 else 0) + Count(s[1..], c)
  }

  /** Count is the number of occurrences: the multiplicity of `c` in `s`. */
  lemma {:induction false} CountOccurrences(s: string, c: char)
    ensures Count(s, c) == multiset(s)[c]
  {
    if |s| > 0 {
      assert s == [s[0]] + s[1..];
      CountOccurrences(s[1..], c);
    }
  }

  /** The fields concatenated with `sep` between each neighbouring pair. */
  function Join(fields: seq<string>, sep: char): string
  {
    if |fields| == 0 then ""
    else if |fields| == 1 then fields[0]
    else fields[0] + [sep] + Join(fields[1..], sep)
  }

  /** True when no field in `fields` contains `sep`. */
  predicate FreeOf(fields: seq<string>, sep: char)
  {
    forall i :: 0 <= i < |fields| ==> sep !in fields[i]
  }

  function Min(a: int, b: int): int { if a < b then a else b }

  /**
   * strings.SplitN(s, sep, n) for n >= 1: `s` is cut at its first n - 1
   * separators (fewer when it has fewer), and the last field is the unsplit
   * remainder. Its properties are proved in SplitNShape.
   */
  function SplitN(s: string, sep: char, n: nat): (r: seq<string>)
    requires n >= 1
    ensures 1 <= |r| <= n
    decreases n
  {
    var i := IndexByte(s, sep);
    if n == 1 || i < 0 then [s]
    else [s[..i]] + SplitN(s[i + 1..], sep, n - 1)
  }

  /** No field of `r` but the last contains `sep`. */
  predicate InnerFree(r: seq<string>, sep: char)
  {
    forall k :: 0 <= k < |r| - 1 ==> sep !in r[k]
  }

  /** When `r` has fewer than `n` fields, its last field contains no `sep`. */
  predicate LastFree(r: seq<string>, sep: char, n: nat)
  {
    |r| < n ==> |r| > 0 && sep !in r[|r| - 1]
  }

  /**
   * The shape strings.SplitN promises for `r`: between 1 and `n` fields that
   * join back to `s`, no separator in any field but the last, and none in the
   * last either when `s` ran out of separators before `n` fields.
   */
  predicate SplitShape(s: string, sep: char, n: nat, r: seq<string>)
  {
    1 <= |r| <= n && Join(r, sep) == s && InnerFree(r, sep) && LastFree(r, sep, n)
  }

  /** SplitN yields min(n, separators + 1) fields. */
  lemma {:induction false} SplitNLength(s: string, sep: char, n: nat)
    requires n >= 1
    ensures |SplitN(s, sep, n)| == Min(n, Count(s, sep) + 1)
    decreases n
  {
    var i := IndexByte(s, sep);
    IndexByteFirst(s, sep);
    if n > 1 && i >= 0 {
      var head, tail := s[..i], s[i + 1..];
      assert |SplitN(s, sep, n)| == 1 + |SplitN(tail, sep, n - 1)| by {
        assert SplitN(s, sep, n) == [head] + SplitN(tail, sep, n - 1);
      }
      assert Count(s, sep) == Count(tail, sep) + 1 by {
        assert s == head + [sep] + tail;
        CountSplit(head, sep, tail);
      }
      SplitNLength(tail, sep, n - 1);
    } else if i < 0 {
      CountAbsent(s, sep);
    }
  }

  /** SplitN's fields join back to the input. */
  lemma {:induction false} SplitNJoin(s: string, sep: char, n: nat)
    requires n >= 1
    ensures Join(SplitN(s, sep, n), sep) == s
    decreases n
  {
    var i := IndexByte(s, sep);
    IndexByteFirst(s, sep);
    if n > 1 && i >= 0 {
      var head, tail := s[..i], s[i + 1..];
      var rest := SplitN(tail, sep, n - 1);
      assert SplitN(s, sep, n) == [head] + rest;
      SplitNJoin(tail, sep, n - 1);
      assert Join([head] + rest, sep) == head + [sep] + tail by {
        JoinCons(head, rest, sep);
      }
      CutAt(s, i);
    }
  }

  /** A string is its prefix, the character at `i`, and its suffix. */
  lemma CutAt(s: string, i: int)
    requires 0 <= i < |s|
    ensures s == s[..i] + [s[i]] + s[i + 1..]
  {
  }

  /** No field of SplitN's result but the last contains the separator. */
  lemma {:induction false} SplitNInner(s: string, sep: char, n: nat)
    requires n >= 1
    ensures InnerFree(SplitN(s, sep, n), sep)
    decreases n
  {
    var i := IndexByte(s, sep);
    IndexByteFirst(s, sep);
    if n > 1 && i >= 0 {
      var head, tail := s[..i], s[i + 1..];
      var rest := SplitN(tail, sep, n - 1);
      var r := [head] + rest;
      assert SplitN(s, sep, n) == r;
      SplitNInner(tail, sep, n - 1);
      assert InnerFree(rest, sep);
      assert forall k :: 1 <= k < |r| ==> r[k] == rest[k - 1];
    }
  }

  /** Fewer than `n` fields means the last one holds no separator. */
  lemma {:induction false} SplitNLast(s: string, sep: char, n: nat)
    requires n >= 1
    ensures LastFree(SplitN(s, sep, n), sep, n)
    decreases n
  {
    var i := IndexByte(s, sep);
    IndexByteFirst(s, sep);
    if n == 1 {
    } else if i < 0 {
      assert SplitN(s, sep, n) == [s];
    } else {
      var head, tail := s[..i], s[i + 1..];
      var rest := SplitN(tail, sep, n - 1);
      assert SplitN(s, sep, n) == [head] + rest;
      SplitNLast(tail, sep, n - 1);
      assert LastFree(rest, sep, n - 1);
    }
  }

  /** SplitN has the shape strings.SplitN promises. */
  lemma SplitNShape(s: string, sep: char, n: nat)
    requires n >= 1
    ensures SplitShape(s, sep, n, SplitN(s, sep, n))
  {
    SplitNJoin(s, sep, n);
    SplitNInner(s, sep, n);
    SplitNLast(s, sep, n);
  }

  /** Join of one more field in front. */
  lemma JoinCons(head: string, rest: seq<string>, sep: char)
    requires |rest| >= 1
    ensures Join([head] + rest, sep) == head + [sep] + Join(rest, sep)
  {
    assert ([head] + rest)[1..] == rest;
  }

  /** Count over a string cut at a separator that the head does not contain. */
  lemma CountSplit(head: string, sep: char, tail: string)
    requires sep !in head
    ensures Count(head + [sep] + tail, sep) == Count(tail, sep) + 1
  {
    CountAppend(head, [sep] + tail, sep);
    CountAbsent(head, sep);
    assert ([sep] + tail)[1..] == tail;
    assert head + [sep] + tail == head + ([sep] + tail);
  }

  lemma {:induction false} CountAppend(a: string, b: string, c: char)
    ensures Count(a + b, c) == Count(a, c) + Count(b, c)
  {
    if |a| > 0 {
      assert (a + b)[1..] == a[1..] + b;
      CountAppend(a[1..], b, c);
    } else {
      assert a + b == b;
    }
  }

  lemma {:induction false} CountAbsent(s: string, c: char)
    requires c !in s
    ensures Count(s, c) == 0
  {
    if |s| > 0 {
      assert s[0] != c && c !in s[1..];
      CountAbsent(s[1..], c);
    }
  }

  /** Join of a prefix of fields followed by the join of the remaining ones. */
  lemma {:induction false} JoinTail(a: seq<string>, b: seq<string>, sep: char)
    requires |b| >= 1
    ensures Join(a + [Join(b, sep)], sep) == Join(a + b, sep)
  {
    if |a| == 0 {
      assert a + [Join(b, sep)] == [Join(b, sep)];
      assert a + b == b;
    } else {
      assert (a + [Join(b, sep)])[0] == a[0] && (a + b)[0] == a[0];
      assert (a + [Join(b, sep)])[1..] == a[1..] + [Join(b, sep)];
      assert (a + b)[1..] == a[1..] + b;
      JoinTail(a[1..], b, sep);
    }
  }

  /** Joining `k` separator-free fields puts exactly `k - 1` separators in the result. */
  lemma {:induction false} JoinCount(fields: seq<string>, sep: char)
    requires |fields| >= 1 && FreeOf(fields, sep)
    ensures Count(Join(fields, sep), sep) == |fields| - 1
  {
    if |fields| > 1 {
      assert FreeOf(fields[1..], sep) by {
        forall i | 0 <= i < |fields[1..]| ensures sep !in fields[1..][i] {
          assert fields[1..][i] == fields[i + 1];
        }
      }
      JoinCount(fields[1..], sep);
      CountAbsent(fields[0], sep);
      CountAppend(fields[0], [sep] + Join(fields[1..], sep), sep);
      assert fields[0] + [sep] + Join(fields[1..], sep) == fields[0] + ([sep] + Join(fields[1..], sep));
      assert ([sep] + Join(fields[1..], sep))[1..] == Join(fields[1..], sep);
    } else {
      CountAbsent(fields[0], sep);
    }
  }

  /** Cutting at the first separator of `a + [sep] + b`, when `a` has none, cuts at `|a|`. */
  lemma FirstSeparator(a: string, sep: char, b: string)
    requires sep !in a
    ensures IndexByte(a + [sep] + b, sep) == |a|
  {
    var s := a + [sep] + b;
    IndexByteFirst(s, sep);
    assert s[|a|] == sep;
    assert forall j :: 0 <= j < |a| ==> s[j] == a[j];
  }

  /**
   * SplitN is the only split of `s` with that shape: any `r` shaped like
   * SplitShape describes is SplitN(s, sep, n).
   */
  lemma {:induction false} SplitNUnique(s: string, sep: char, n: nat, r: seq<string>)
    requires n >= 1 && SplitShape(s, sep, n, r)
    ensures SplitN(s, sep, n) == r
    decreases n
  {
    if |r| > 1 {
      var tail := Join(r[1..], sep);
      ShapeTail(s, sep, n, r);
      SplitNStep(r[0], sep, tail, n);
      SplitNUnique(tail, sep, n - 1, r[1..]);
      assert r == [r[0]] + r[1..];
    } else {
      assert s == r[0];
      IndexByteFirst(s, sep);
    }
  }

  /** A shaped split of more than one field: its first field, a separator, and a shaped rest. */
  lemma ShapeTail(s: string, sep: char, n: nat, r: seq<string>)
    requires n >= 1 && SplitShape(s, sep, n, r) && |r| > 1
    ensures n > 1 && sep !in r[0]
    ensures s == r[0] + [sep] + Join(r[1..], sep)
    ensures SplitShape(Join(r[1..], sep), sep, n - 1, r[1..])
  {
    JoinCons(r[0], r[1..], sep);
    assert r == [r[0]] + r[1..];
    assert forall k :: 0 <= k < |r[1..]| ==> r[1..][k] == r[k + 1];
  }

  /** SplitN cuts at the first separator when `n > 1`. */
  lemma SplitNStep(head: string, sep: char, tail: string, n: nat)
    requires n > 1 && sep !in head
    ensures SplitN(head + [sep] + tail, sep, n) == [head] + SplitN(tail, sep, n - 1)
  {
    var s := head + [sep] + tail;
    FirstSeparator(head, sep, tail);
    assert s[..|head|] == head;
    assert s[|head| + 1..] == tail;
  }

  /**
   * Splitting the join of `k >= 1` separator-free fields into at most
   * `n >= k` fields gives the fields back.
   */
  lemma SplitJoin(fields: seq<string>, sep: char, n: nat)
    requires 1 <= |fields| <= n && FreeOf(fields, sep)
    ensures SplitN(Join(fields, sep), sep, n) == fields
  {
    assert InnerFree(fields, sep);
    assert LastFree(fields, sep, n);
    SplitNUnique(Join(fields, sep), sep, n, fields);
  }

  // ---------------------------------------------------------------------
  // strconv.Atoi, strconv.Itoa
  // ---------------------------------------------------------------------

  predicate IsDigit(c: char) { '0' <= c <= '9' }

  predicate AllDigits(s: string)
  {
    forall i :: 0 <= i < |s| ==> IsDigit(s[i])
  }

  /** Value of a string of decimal digits, most significant digit first. */
  function DigitsValue(s: string): nat
    requires AllDigits(s)
  {
    if |s| == 0 then 0
    else 10 * DigitsValue(s[..|s| - 1]) + (s[|s| - 1] as int - '0' as int)
  }

  /**
   * strconv.Atoi: an optional '+' or '-' followed by one or more decimal
   * digits. Anything else, the empty string included, is a syntax error
   * (None), for which Go returns 0 together with the error.
   */
  function Atoi(s: string): Option<int>
  {
    var signed := |s| > 0 && (s[0] == '+' || s[0] == '-');
    var digits := if signed then s[1..] else s;
    if |digits| == 0 || !AllDigits(digits) then None
    else
      var v: int := DigitsValue(digits);
      if signed && s[0] == '-' then Some(-v) else Some(v)
  }

  /** Decimal digits of `x` without leading zeros ("0" for zero). */
  function NatToDecimal(x: nat): (r: string)
    ensures |r| > 0 && AllDigits(r)
    ensures |r| > 1 ==> r[0] != '0'
  {
    if x < 10 then [('0' as int + x) as char]
    else NatToDecimal(x / 10) + [('0' as int + x % 10) as char]
  }

  /** strconv.Itoa: the decimal form of `x`, with a leading '-' when negative. */
  function Itoa(x: int): string
  {
    if x < 0 then "-" + NatToDecimal(-x) else NatToDecimal(x)
  }

  lemma {:induction false} DecimalValue(x: nat)
    ensures DigitsValue(NatToDecimal(x)) == x
  {
    if x >= 10 {
      DecimalValue(x / 10);
      var s := NatToDecimal(x);
      assert s[..|s| - 1] == NatToDecimal(x / 10);
    }
  }

  /** Atoi reads back every integer Itoa writes. */
  lemma AtoiItoa(x: int)
    ensures Atoi(Itoa(x)) == Some(x)
  {
    if x < 0 {
      DecimalValue(-x);
      AtoiNegative(NatToDecimal(-x));
    } else {
      DecimalValue(x);
      AtoiUnsigned(NatToDecimal(x));
    }
  }

  /** A digit string without a sign reads as its value. */
  lemma AtoiUnsigned(s: string)
    requires |s| > 0 && AllDigits(s)
    ensures Atoi(s) == Some(DigitsValue(s))
  {
    assert IsDigit(s[0]);
  }

  /** A digit string after '-' reads as its negated value. */
  lemma AtoiNegative(s: string)
    requires |s| > 0 && AllDigits(s)
    ensures Atoi("-" + s) == Some(0 - DigitsValue(s) as int)
  {
    assert ("-" + s)[1..] == s;
  }

  /** The empty string is not a number; a missing environment variable reads as one. */
  lemma AtoiEmpty()
    ensures Atoi("") == None
  {
  }
}
