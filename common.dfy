/** Small value types shared by every module of the model. */
module Options {
  /** A value that may be missing: JavaScript's `null` or `undefined`. */
  datatype Option<+T> = None | Some(value: T)

  /** Either a value or the error the source throws. */
  datatype Result<+T, +E> = Ok(value: T) | Err(error: E)
}

/** String helpers with JavaScript's semantics, on `seq<char>`. */
module Strings {

  /** Membership in the regular-expression class `\s` (WhiteSpace and LineTerminator),
      which is also the set of code points `String.prototype.trim` removes. */
  predicate IsSpace(c: char) {
    c == ' ' || c == '\t' || c == '\n' || c == '\U{000B}' || c == '\U{000C}' || c == '\r'
    || IsWideSpace(c)
  }

  /** The members of `\s` above the ASCII range. */
  predicate IsWideSpace(c: char) {
    c == '\U{00A0}' || c == '\U{1680}' || ('\U{2000}' <= c <= '\U{200A}')
    || c == '\U{2028}' || c == '\U{2029}' || c == '\U{202F}' || c == '\U{205F}'
    || c == '\U{3000}' || c == '\U{FEFF}'
  }

  predicate NoSpace(s: string) {
    forall i :: 0 <= i < |s| ==> !IsSpace(s[i])
  }

  function LowerChar(c: char): char {
    if 'A' <= c <= 'Z' then (c as int + 32) as char else c
  }

  function UpperChar(c: char): char {
    if 'a' <= c <= 'z' then (c as int - 32) as char else c
  }

  /** `toLowerCase()`, on the ASCII letters. */
  function ToLower(s: string): (r: string)
    ensures |r| == |s|
    ensures forall i :: 0 <= i < |s| ==> r[i] == LowerChar(s[i])
  {
    seq(|s|, i requires 0 <= i < |s| => LowerChar(s[i]))
  }

  /** `toUpperCase()`, on the ASCII letters. */
  function ToUpper(s: string): (r: string)
    ensures |r| == |s|
    ensures forall i :: 0 <= i < |s| ==> r[i] == UpperChar(s[i])
  {
    seq(|s|, i requires 0 <= i < |s| => UpperChar(s[i]))
  }

  lemma LowerIdempotent(s: string)
    ensures ToLower(ToLower(s)) == ToLower(s)
  {
    assert forall i :: 0 <= i < |s| ==> LowerChar(LowerChar(s[i])) == LowerChar(s[i]);
  }

  /** Drops the leading whitespace of `s`. */
  function DropSpaces(s: string): (r: string)
    ensures |r| <= |s| && r == s[|s| - |r|..]
    ensures r == [] || !IsSpace(r[0])
    ensures forall i :: 0 <= i < |s| - |r| ==> IsSpace(s[i])
  {
    if s != [] && IsSpace(s[0]) then DropSpaces(s[1..]) else s
  }

  /** `s.replace(/\s+/g, '-')`: every maximal run of whitespace becomes one hyphen. */
  function CollapseSpaces(s: string): (r: string)
    ensures NoSpace(r)
    ensures |r| <= |s|
    decreases |s|
  {
    if s == [] then []
    else if IsSpace(s[0]) then
      var t := CollapseSpaces(DropSpaces(s[1..]));
      NoSpaceCons('-', t);
      "-" + t
    else
      var t := CollapseSpaces(s[1..]);
      NoSpaceCons(s[0], t);
      [s[0]] + t
  }

  lemma NoSpaceCons(c: char, t: string)
    requires !IsSpace(c) && NoSpace(t)
    ensures NoSpace([c] + t)
  {
    assert forall i :: 1 <= i <= |t| ==> ([c] + t)[i] == t[i - 1];
  }

  /** A string without whitespace is left as it is. */
  lemma {:induction false} CollapseWithoutSpaces(s: string)
    requires NoSpace(s)
    ensures CollapseSpaces(s) == s
  {
    if s != [] {
      CollapseWithoutSpaces(s[1..]);
    }
  }

  /** Every run of whitespace, whatever its length, becomes exactly one hyphen. */
  lemma {:induction false} CollapseRun(a: string, run: string, b: string)
    requires NoSpace(a) && run != [] && (forall i :: 0 <= i < |run| ==> IsSpace(run[i]))
    requires b == [] || !IsSpace(b[0])
    ensures CollapseSpaces(a + run + b) == a + "-" + CollapseSpaces(b)
    decreases |a|
  {
    if a == [] {
      assert a + run + b == run + b;
      CollapseRunFirst(run, b);
    } else {
      CollapseRun(a[1..], run, b);
      CollapseRunStep(a, run, b);
    }
  }

  /** The inductive step of `CollapseRun`: a leading non-space is kept in front. */
  lemma CollapseRunStep(a: string, run: string, b: string)
    requires a != [] && !IsSpace(a[0])
    requires CollapseSpaces(a[1..] + run + b) == a[1..] + "-" + CollapseSpaces(b)
    ensures CollapseSpaces(a + run + b) == a + "-" + CollapseSpaces(b)
  {
    AppendAssoc(a, run, b);
    AppendAssoc(a[1..], run, b);
    CollapseKeepsFirst(a, run + b);
    HeadInFront(a, CollapseSpaces(b));
  }

  lemma HeadInFront(a: string, c: string)
    requires a != []
    ensures [a[0]] + (a[1..] + "-" + c) == a + "-" + c
  {
    var tail := a[1..];
    ConsAppend(a[0], tail + "-", c);
    ConsAppend(a[0], tail, "-");
    assert [a[0]] + tail == a;
  }

  /** A leading run of whitespace becomes one hyphen. */
  lemma CollapseRunFirst(run: string, b: string)
    requires run != [] && (forall i :: 0 <= i < |run| ==> IsSpace(run[i]))
    requires b == [] || !IsSpace(b[0])
    ensures CollapseSpaces(run + b) == "-" + CollapseSpaces(b)
  {
    var s := run + b;
    assert s[0] == run[0] && s[1..] == run[1..] + b;
    DropAllSpaces(run[1..], b);
  }

  /** A leading character that is not whitespace is kept. */
  lemma CollapseKeepsFirst(x: string, rest: string)
    requires x != [] && !IsSpace(x[0])
    ensures CollapseSpaces(x + rest) == [x[0]] + CollapseSpaces(x[1..] + rest)
  {
    assert (x + rest)[0] == x[0] && (x + rest)[1..] == x[1..] + rest;
  }

  lemma DropAllSpaces(run: string, b: string)
    requires forall i :: 0 <= i < |run| ==> IsSpace(run[i])
    requires b == [] || !IsSpace(b[0])
    ensures DropSpaces(run + b) == b
  {
    var s := run + b;
    var r := DropSpaces(s);
    var k := |s| - |r|;
    assert forall i :: 0 <= i < |run| ==> s[i] == run[i];
    assert r != [] ==> r[0] == s[k];
    assert b != [] ==> s[|run|] == b[0];
    assert s[|s| - |b|..] == b;
  }

  /** The slug the source builds from a team's full name:
      `name.toLowerCase().replace(/\s+/g, '-')`. */
  function Slugify(name: string): (r: string)
    ensures NoSpace(r)
  {
    CollapseSpaces(ToLower(name))
  }

  /** `s.slice(0, n)` for n >= 0. */
  function Take(s: string, n: nat): (r: string)
    ensures |r| == if n < |s| then n else |s|
    ensures r == s[..|r|]
  {
    if n < |s| then s[..n] else s
  }

  /** `s.includes(sub)`. */
  predicate Contains(s: string, sub: string)
    decreases |s|
  {
    if |sub| > |s| then false
    else s[..|sub|] == sub || (s != [] && Contains(s[1..], sub))
  }

  /** Looking for a one-character string is looking for the character. */
  lemma {:induction false} ContainsChar(s: string, c: char)
    ensures Contains(s, [c]) <==> c in s
    decreases |s|
  {
    if s != [] {
      ContainsChar(s[1..], c);
      assert s == [s[0]] + s[1..];
    }
  }

  /** `parts.join(sep)`. */
  function Join(parts: seq<string>, sep: string): string
  {
    if |parts| == 0 then ""
    else if |parts| == 1 then parts[0]
    else parts[0] + sep + Join(parts[1..], sep)
  }

  /** Joins of two, three and four pieces written out. */
  lemma JoinTwo(a: string, b: string, sep: string)
    ensures Join([a, b], sep) == a + sep + b
  {
    assert [a, b][1..] == [b];
  }

  lemma JoinThree(a: string, b: string, c: string, sep: string)
    ensures Join([a, b, c], sep) == a + sep + b + sep + c
  {
    assert [a, b, c][1..] == [b, c];
    JoinTwo(b, c, sep);
  }

  lemma JoinFour(a: string, b: string, c: string, d: string, sep: string)
    ensures Join([a, b, c, d], sep) == a + sep + b + sep + c + sep + d
  {
    assert [a, b, c, d][1..] == [b, c, d];
    JoinThree(b, c, d, sep);
  }

  /** A join is empty exactly when there is nothing to join or a single
      empty piece. */
  lemma JoinEmpty(parts: seq<string>, sep: string)
    requires sep != ""
    ensures Join(parts, sep) == "" <==> parts == [] || (|parts| == 1 && parts[0] == "")
  {
    if |parts| > 1 {
      assert |Join(parts, sep)| >= |sep|;
    }
  }

  /** `s.split(c)` for a one-character separator. */
  function Split(s: string, c: char): (parts: seq<string>)
    ensures |parts| >= 1
    ensures forall i :: 0 <= i < |parts| ==> c !in parts[i]
    decreases |s|
  {
    if s == [] then [""]
    else
      var rest := Split(s[1..], c);
      if s[0] == c then [""] + rest
      else [[s[0]] + rest[0]] + rest[1..]
  }

  /** Joining the pieces of a split with the separator gives back the string. */
  lemma {:induction false} JoinSplit(s: string, c: char)
    ensures Join(Split(s, c), [c]) == s
    decreases |s|
  {
    if s != [] {
      var rest := Split(s[1..], c);
      JoinSplit(s[1..], c);
      if s[0] == c {
        assert Split(s, c) == [""] + rest;
        assert ([""] + rest)[1..] == rest;
        assert Join([""] + rest, [c]) == "" + [c] + Join(rest, [c]);
        assert s == [s[0]] + s[1..];
      } else {
        var parts := [[s[0]] + rest[0]] + rest[1..];
        assert Split(s, c) == parts;
        if |rest| == 1 {
          assert Join(parts, [c]) == [s[0]] + rest[0];
          assert Join(rest, [c]) == rest[0];
        } else {
          assert parts[1..] == rest[1..];
          assert Join(parts, [c]) == [s[0]] + rest[0] + [c] + Join(rest[1..], [c]);
          assert Join(rest, [c]) == rest[0] + [c] + Join(rest[1..], [c]);
        }
        assert s == [s[0]] + s[1..];
      }
    }
  }

  /** A piece without the separator, followed by the separator, splits off as one piece. */
  lemma {:induction false} SplitCons(a: string, c: char, b: string)
    requires c !in a
    ensures Split(a + [c] + b, c) == [a] + Split(b, c)
    decreases |a|
  {
    if a == [] {
      assert a + [c] + b == [c] + b;
      assert ([c] + b)[1..] == b;
    } else {
      assert (a + [c] + b)[1..] == a[1..] + [c] + b;
      SplitCons(a[1..], c, b);
      assert a == [a[0]] + a[1..];
    }
  }

  /** Pieces joined by a separator they do not contain, followed by the
      separator and anything, split off as those pieces. */
  lemma {:induction false} SplitAfter(pieces: seq<string>, c: char, rest: string)
    requires |pieces| >= 1
    requires forall i :: 0 <= i < |pieces| ==> c !in pieces[i]
    ensures Split(Join(pieces, [c]) + [c] + rest, c) == pieces + Split(rest, c)
    decreases |pieces|
  {
    if |pieces| == 1 {
      SplitCons(pieces[0], c, rest);
    } else {
      var tail := pieces[1..];
      assert forall i :: 0 <= i < |tail| ==> tail[i] == pieces[i + 1];
      var t := Join(tail, [c]);
      var after := t + [c] + rest;
      SplitAfter(tail, c, rest);
      assert Join(pieces, [c]) == pieces[0] + [c] + t;
      assert Join(pieces, [c]) + [c] + rest == pieces[0] + [c] + after;
      SplitCons(pieces[0], c, after);
      assert Split(Join(pieces, [c]) + [c] + rest, c) == [pieces[0]] + (tail + Split(rest, c));
      assert pieces == [pieces[0]] + tail;
      ConsAppend(pieces[0], tail, Split(rest, c));
    }
  }

  lemma AppendAssoc<T>(a: seq<T>, b: seq<T>, c: seq<T>)
    ensures a + b + c == a + (b + c)
  {
  }

  lemma ConsAppend<T>(x: T, a: seq<T>, b: seq<T>)
    ensures [x] + (a + b) == ([x] + a) + b
  {
  }

  /** Splitting pieces joined by a separator they do not contain gives the
      pieces back. */
  lemma {:induction false} SplitJoin(parts: seq<string>, c: char)
    requires |parts| >= 1
    requires forall i :: 0 <= i < |parts| ==> c !in parts[i]
    ensures Split(Join(parts, [c]), c) == parts
    decreases |parts|
  {
    if |parts| == 1 {
      SplitNone(parts[0], c);
    } else {
      SplitJoin(parts[1..], c);
      SplitCons(parts[0], c, Join(parts[1..], [c]));
      assert parts == [parts[0]] + parts[1..];
    }
  }

  /** A string without the separator splits into itself. */
  lemma {:induction false} SplitNone(a: string, c: char)
    requires c !in a
    ensures Split(a, c) == [a]
    decreases |a|
  {
    if a != [] {
      SplitNone(a[1..], c);
      assert a == [a[0]] + a[1..];
    }
  }

  /** Trailing-word removal as `extractCityFromTeamName` does it:
      `s.split(' ').slice(0, -1).join(' ')`. */
  function DropLastWord(s: string): string
  {
    var parts := Split(s, ' ');
    Join(parts[..|parts| - 1], " ")
  }

  function LastWord(s: string): string
  {
    var parts := Split(s, ' ');
    parts[|parts| - 1]
  }

  lemma JoinSnoc(parts: seq<string>, x: string, sep: string)
    requires |parts| >= 1
    ensures Join(parts + [x], sep) == Join(parts, sep) + sep + x
    decreases |parts|
  {
    if |parts| == 1 {
      assert parts + [x] == [parts[0], x];
    } else {
      assert (parts + [x])[1..] == parts[1..] + [x];
      JoinSnoc(parts[1..], x, sep);
    }
  }

  /** A name with a space is its city, one space and its last word;
      a name without a space has the empty city. */
  lemma {:induction false} CityAndLastWord(s: string)
    ensures ' ' in s ==> DropLastWord(s) + " " + LastWord(s) == s
    ensures ' ' !in s ==> DropLastWord(s) == "" && LastWord(s) == s
  {
    var parts := Split(s, ' ');
    if ' ' in s {
      SplitAtSpace(s);
      var init := parts[..|parts| - 1];
      var last := parts[|parts| - 1];
      assert parts == init + [last];
      JoinSnoc(init, last, " ");
      assert " " == [' '];
      JoinSplit(s, ' ');
    } else {
      SplitNone(s, ' ');
    }
  }

  /** A string holding a space splits into at least two pieces. */
  lemma SplitAtSpace(s: string)
    requires ' ' in s
    ensures |Split(s, ' ')| >= 2
  {
    var parts := Split(s, ' ');
    JoinSplit(s, ' ');
    JoinSingle(parts, [' ']);
  }

  lemma JoinSingle(parts: seq<string>, sep: string)
    ensures |parts| == 1 ==> Join(parts, sep) == parts[0]
  {
  }

  /** `String.prototype.trim`. */
  function Trim(s: string): (r: string)
    ensures |r| <= |s|
    ensures r == [] || (!IsSpace(r[0]) && !IsSpace(r[|r| - 1]))
  {
    TrimEnd(DropSpaces(s))
  }

  function TrimEnd(s: string): (r: string)
    ensures |r| <= |s| && r == s[..|r|]
    ensures r == [] || !IsSpace(r[|r| - 1])
    ensures forall i :: |r| <= i < |s| ==> IsSpace(s[i])
  {
    if s != [] && IsSpace(s[|s| - 1]) then TrimEnd(s[..|s| - 1]) else s
  }

  /** Every character of `s` is whitespace. */
  predicate IsBlank(s: string) {
    forall i :: 0 <= i < |s| ==> IsSpace(s[i])
  }

  /** `s.trim()` is empty exactly when every character of `s` is whitespace. */
  lemma TrimEmpty(s: string)
    ensures Trim(s) == [] <==> IsBlank(s)
  {
    var d := DropSpaces(s);
    assert d != [] ==> d[0] == s[|s| - |d|];
  }

  function DigitChar(d: nat): char
    requires d < 10
  {
    ('0' as int + d) as char
  }

  predicate IsDigit(c: char) {
    '0' <= c <= '9'
  }

  /** The decimal text of a natural number, as `String(n)` prints it. */
  function NatToString(n: nat): (r: string)
    ensures r != []
    ensures forall i :: 0 <= i < |r| ==> IsDigit(r[i])
  {
    if n < 10 then [DigitChar(n)] else NatToString(n / 10) + [DigitChar(n % 10)]
  }

  /** The decimal text of an integer, as a template literal prints it. */
  function IntToString(i: int): string
  {
    if i < 0 then "-" + NatToString(-i) else NatToString(i)
  }

  /** Reads decimal digits back (`parseInt(s, 10)` on a digit string). */
  function ParseDigits(s: string): nat
    requires forall i :: 0 <= i < |s| ==> IsDigit(s[i])
  {
    if s == [] then 0
    else
      assert IsDigit(s[|s| - 1]);
      ParseDigits(s[..|s| - 1]) * 10 + (s[|s| - 1] as int - '0' as int)
  }

  /** Printing a number and reading it back gives the number. */
  lemma {:induction false} NatToStringRoundTrip(n: nat)
    ensures ParseDigits(NatToString(n)) == n
  {
    var r := NatToString(n);
    if n >= 10 {
      NatToStringRoundTrip(n / 10);
      assert r[..|r| - 1] == NatToString(n / 10);
    }
  }
}

/** Generic operations on sequences: filtering, finding, stable sorting and
    order-preserving de-duplication. */
module Sequences {
  import opened Options

  /** `s.filter(p)`. */
  function Filter<T>(s: seq<T>, p: T -> bool): (r: seq<T>)
    ensures |r| <= |s|
    ensures forall x :: x in r ==> x in s && p(x)
    ensures forall x :: x in s && p(x) ==> x in r
  {
    if s == [] then []
    else if p(s[0]) then [s[0]] + Filter(s[1..], p)
    else Filter(s[1..], p)
  }

  /** The index of the first element satisfying `p`, or `|s|` when there is none. */
  function FirstIndex<T>(s: seq<T>, p: T -> bool): (i: nat)
    ensures i <= |s|
    ensures forall j :: 0 <= j < i ==> !p(s[j])
    ensures i < |s| ==> p(s[i])
  {
    if s == [] then 0
    else if p(s[0]) then 0
    else 1 + FirstIndex(s[1..], p)
  }

  /** `s.find(p)`: the first element satisfying `p`. */
  function Find<T>(s: seq<T>, p: T -> bool): (r: Option<T>)
    ensures r.None? <==> forall i :: 0 <= i < |s| ==> !p(s[i])
    ensures r.Some? ==> r.value in s && p(r.value)
  {
    var i := FirstIndex(s, p);
    if i < |s| then Some(s[i]) else None
  }

  /** `le` is a total preorder: the comparator of a sort. */
  ghost predicate TotalPreorder<T(!new)>(le: (T, T) -> bool) {
    && (forall a, b :: le(a, b) || le(b, a))
    && (forall a, b, c :: le(a, b) && le(b, c) ==> le(a, c))
  }

  ghost predicate Sorted<T>(s: seq<T>, le: (T, T) -> bool) {
    forall i, j :: 0 <= i < j < |s| ==> le(s[i], s[j])
  }

  /** Puts `x` before the first element it is not after, so that among equal
      elements the earlier input stays first. */
  function Insert<T>(x: T, s: seq<T>, le: (T, T) -> bool): (r: seq<T>)
    ensures multiset(r) == multiset(s) + multiset{x}
    ensures |r| == |s| + 1
  {
    if s == [] then [x]
    else if le(x, s[0]) then [x] + s
    else
      assert s == [s[0]] + s[1..];
      [s[0]] + Insert(x, s[1..], le)
  }

  /** A stable sort (`Array.prototype.sort` / `toSorted` since ES2019) under the
      comparator `le`; the result is a permutation of the input. */
  function SortWith<T>(s: seq<T>, le: (T, T) -> bool): (r: seq<T>)
    ensures multiset(r) == multiset(s)
    ensures |r| == |s|
  {
    if s == [] then []
    else
      assert s == [s[0]] + s[1..];
      Insert(s[0], SortWith(s[1..], le), le)
  }

  lemma {:induction false} InsertSorted<T(!new)>(x: T, s: seq<T>, le: (T, T) -> bool)
    requires TotalPreorder(le) && Sorted(s, le)
    ensures Sorted(Insert(x, s, le), le)
    decreases |s|
  {
    if s != [] && !le(x, s[0]) {
      InsertSorted(x, s[1..], le);
      var t := Insert(x, s[1..], le);
      assert le(s[0], x);
      forall k | 0 <= k < |t| ensures le(s[0], t[k]) {
        assert t[k] in multiset(t);
        assert t[k] == x || t[k] in multiset(s[1..]);
        if t[k] != x {
          var m :| 0 <= m < |s[1..]| && s[1..][m] == t[k];
          assert s[m + 1] == t[k];
        }
      }
    }
  }

  /** The result of the sort is ordered by the comparator. */
  lemma {:induction false} SortSorted<T(!new)>(s: seq<T>, le: (T, T) -> bool)
    requires TotalPreorder(le)
    ensures Sorted(SortWith(s, le), le)
  {
    if s != [] {
      SortSorted(s[1..], le);
      InsertSorted(s[0], SortWith(s[1..], le), le);
    }
  }

  /** A prefix of a sorted sequence is sorted, is part of it, and ranks
      no later than anything the rest holds. */
  lemma SortedPrefix<T>(s: seq<T>, n: nat, le: (T, T) -> bool)
    requires n <= |s| && Sorted(s, le)
    ensures multiset(s[..n]) <= multiset(s)
    ensures Sorted(s[..n], le)
    ensures forall x, y :: x in s[..n] && y in multiset(s) - multiset(s[..n]) ==> le(x, y)
  {
    var r := s[..n];
    assert s == r + s[n..];
    assert multiset(s) == multiset(r) + multiset(s[n..]);
    forall x, y | x in r && y in multiset(s) - multiset(r) ensures le(x, y) {
      var i :| 0 <= i < n && r[i] == x;
      assert y in multiset(s[n..]);
      var j :| 0 <= j < |s[n..]| && s[n..][j] == y;
      assert s[n + j] == y;
    }
  }

  /** The first element of a sorted sequence that satisfies `p` is no greater
      than any other element that satisfies it. */
  lemma FindInSortedIsLeast<T(!new)>(t: seq<T>, p: T -> bool, le: (T, T) -> bool)
    requires TotalPreorder(le) && Sorted(t, le)
    requires Find(t, p).Some?
    ensures forall y :: y in t && p(y) ==> le(Find(t, p).value, y)
  {
    var i := FirstIndex(t, p);
    var x := t[i];
    forall y | y in t && p(y) ensures le(x, y) {
      var k :| 0 <= k < |t| && t[k] == y;
      assert le(x, x) || le(x, x);
      if k != i {
        assert i < k;
      }
    }
  }

  /** The keys of the elements of `s`. */
  function KeySet<T(==), K(==)>(s: seq<T>, key: T -> K): set<K>
  {
    set x | x in s :: key(x)
  }

  /** Order-preserving de-duplication by key that keeps the first occurrence:
      `[...new Set(s)]`, lodash `uniqBy`, or a loop guarded by a set of seen keys. */
  function DedupeBy<T(==), K(==)>(s: seq<T>, key: T -> K): (r: seq<T>)
    ensures KeySet(r, key) == KeySet(s, key)
    ensures forall x :: x in r ==> x in s
    decreases |s|
  {
    if s == [] then []
    else
      var d := DedupeBy(s[..|s| - 1], key);
      var x := s[|s| - 1];
      assert s == s[..|s| - 1] + [x];
      assert KeySet(s, key) == KeySet(s[..|s| - 1], key) + {key(x)};
      if key(x) in KeySet(d, key) then d
      else
        assert KeySet(d + [x], key) == KeySet(d, key) + {key(x)};
        d + [x]
  }

  /** De-duplicating a longer list keeps the de-duplication of its
      prefix as its own prefix: whatever comes first stays first. */
  lemma {:induction false} DedupePrefix<T, K>(p: seq<T>, q: seq<T>, key: T -> K)
    ensures |DedupeBy(p, key)| <= |DedupeBy(p + q, key)|
    ensures DedupeBy(p + q, key)[..|DedupeBy(p, key)|] == DedupeBy(p, key)
    decreases |q|
  {
    if q == [] {
      assert p + q == p;
    } else {
      var q' := q[..|q| - 1];
      DedupePrefix(p, q', key);
      assert (p + q)[..|p + q| - 1] == p + q';
    }
  }

  /** No two elements share a key. */
  ghost predicate DistinctKeys<T, K>(s: seq<T>, key: T -> K) {
    forall i, j :: 0 <= i < j < |s| ==> key(s[i]) != key(s[j])
  }

  lemma {:induction false} DedupeDistinct<T, K>(s: seq<T>, key: T -> K)
    ensures DistinctKeys(DedupeBy(s, key), key)
    decreases |s|
  {
    if s != [] {
      DedupeDistinct(s[..|s| - 1], key);
    }
  }

  /** Filtering keeps distinct keys distinct. */
  lemma {:induction false} FilterKeepsDistinct<T, K>(s: seq<T>, p: T -> bool, key: T -> K)
    requires DistinctKeys(s, key)
    ensures DistinctKeys(Filter(s, p), key)
    decreases |s|
  {
    if s != [] {
      FilterKeepsDistinct(s[1..], p, key);
      var rest := Filter(s[1..], p);
      assert forall x :: x in rest ==> x in s[1..];
      forall x | x in s[1..] ensures key(x) != key(s[0]) {
        var j :| 0 <= j < |s[1..]| && s[1..][j] == x;
        assert s[j + 1] == x;
      }
    }
  }

  /** A list with distinct keys holds each element at most once. */
  lemma {:induction false} DistinctCountsOnce<T, K>(s: seq<T>, key: T -> K, x: T)
    requires DistinctKeys(s, key)
    ensures multiset(s)[x] <= 1
    decreases |s|
  {
    if s != [] {
      var init := s[..|s| - 1];
      assert s == init + [s[|s| - 1]];
      DistinctCountsOnce(init, key, x);
      if x == s[|s| - 1] {
        assert x !in init by {
          forall i | 0 <= i < |init| ensures init[i] != x {
            assert key(s[i]) != key(s[|s| - 1]);
          }
        }
      }
    }
  }

  /** Reordering a list with distinct keys keeps them distinct. */
  lemma PermutationKeepsDistinct<T, K>(s: seq<T>, t: seq<T>, key: T -> K)
    requires DistinctKeys(s, key) && multiset(s) == multiset(t)
    ensures DistinctKeys(t, key)
  {
    forall i, j | 0 <= i < j < |t| ensures key(t[i]) != key(t[j]) {
      assert t[i] in multiset(s) && t[j] in multiset(s);
      var a :| 0 <= a < |s| && s[a] == t[i];
      var b :| 0 <= b < |s| && s[b] == t[j];
      if a < b {
        assert key(s[a]) != key(s[b]);
      } else if b < a {
        assert key(s[b]) != key(s[a]);
      } else {
        assert t == t[..j] + t[j..];
        assert multiset(t) == multiset(t[..j]) + multiset(t[j..]);
        assert t[i] in multiset(t[..j]) && t[j] in multiset(t[j..]);
        DistinctCountsOnce(s, key, t[i]);
      }
    }
  }

  lemma KeySetSnoc<T, K>(s: seq<T>, x: T, key: T -> K)
    ensures KeySet(s + [x], key) == KeySet(s, key) + {key(x)}
  {
    assert forall y :: y in s + [x] <==> y in s || y == x;
  }

  /** De-duplication extended by one element: it is appended exactly when
      its key is new. */
  lemma DedupeSnoc<T, K>(s: seq<T>, x: T, key: T -> K)
    ensures DedupeBy(s + [x], key) ==
      if key(x) in KeySet(DedupeBy(s, key), key) then DedupeBy(s, key) else DedupeBy(s, key) + [x]
  {
    assert (s + [x])[..|s + [x]| - 1] == s;
  }

  /** `r` is `s` with some elements left out, the others kept in order. */
  ghost predicate SubsequenceOf<T>(r: seq<T>, s: seq<T>)
    decreases |s|
  {
    if r == [] then true
    else if s == [] then false
    else (r[|r| - 1] == s[|s| - 1] && SubsequenceOf(r[..|r| - 1], s[..|s| - 1]))
         || SubsequenceOf(r, s[..|s| - 1])
  }

  lemma {:induction false} DedupeIsSubsequence<T, K>(s: seq<T>, key: T -> K)
    ensures SubsequenceOf(DedupeBy(s, key), s)
    decreases |s|
  {
    if s != [] {
      var d := DedupeBy(s[..|s| - 1], key);
      DedupeIsSubsequence(s[..|s| - 1], key);
      if DedupeBy(s, key) != d {
        assert (d + [s[|s| - 1]])[..|d|] == d;
      }
    }
  }

  /** Every first occurrence of a key survives de-duplication. */
  lemma {:induction false} DedupeKeepsFirst<T, K>(s: seq<T>, key: T -> K, i: nat)
    requires i < |s|
    requires forall j :: 0 <= j < i ==> key(s[j]) != key(s[i])
    ensures s[i] in DedupeBy(s, key)
    decreases |s|
  {
    var n := |s| - 1;
    var d := DedupeBy(s[..n], key);
    if i < n {
      DedupeKeepsFirst(s[..n], key, i);
    } else {
      assert forall y :: y in s[..n] ==> key(y) != key(s[n]);
      assert key(s[n]) !in KeySet(s[..n], key);
    }
  }
}

/** The unified records every league's schedule is mapped to. */
module Domain {
  import opened Options

  /** A timestamp as the source carries it: its ISO 8601 text and the
      millisecond value `new Date(iso).getTime()` parses from it. */
  datatype Stamp = Stamp(iso: string, ms: int)

  datatype Team = Team(
    id: int,
    nickName: string,
    fullName: string,
    abbreviation: string,
    primaryColor: string,
    secondaryColor: string)

  /** A game; a missing or empty `time` is `None`. */
  datatype Game = Game(
    id: string,
    time: Option<Stamp>,
    homeTeam: Option<Team>,
    awayTeam: Option<Team>,
    startTimeTbd: bool,
    broadcast: Option<string>)

  /** The side of `game` that is not `team`:
      `game.homeTeam?.abbreviation === team.abbreviation ? game.awayTeam : game.homeTeam`. */
  function OtherSide(game: Game, team: Team): (r: Option<Team>)
    ensures r == game.homeTeam || r == game.awayTeam
    ensures game.homeTeam.Some? && game.homeTeam.value.abbreviation == team.abbreviation ==> r == game.awayTeam
    ensures (game.homeTeam.None? || game.homeTeam.value.abbreviation != team.abbreviation) ==> r == game.homeTeam
  {
    if game.homeTeam.Some? && game.homeTeam.value.abbreviation == team.abbreviation
    then game.awayTeam else game.homeTeam
  }
}
