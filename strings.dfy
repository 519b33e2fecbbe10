/**
 * Text helpers with Python's semantics: str.split on one character and on
 * a string (second piece), str.join, str.find, str.rfind, slicing with a
 * possibly negative bound, str.lower on ASCII text, os.path.basename, decimal
 * formatting, string comparison, sorted() and the append-if-absent loop.
 */
module Strings {

  import opened Wrappers

  /** A file's contents as its lines; each line is written followed by "\n". */
  function Render(lines: seq<string>): (text: string)
    ensures |lines| > 0 ==> |text| > 0 && text[|text| - 1] == '\n'
  {
    if lines == [] then "" else lines[0] + "\n" + Render(lines[1..])
  }

  /** The lines of a sequence of blocks, one block after the other. */
  function Concat(blocks: seq<seq<string>>): seq<string>
  {
    if blocks == [] then [] else blocks[0] + Concat(blocks[1..])
  }

  lemma {:induction false} ConcatAppend(a: seq<seq<string>>, b: seq<seq<string>>)
    ensures Concat(a + b) == Concat(a) + Concat(b)
  {
    if a == [] {
      assert a + b == b;
    } else {
      assert (a + b)[1..] == a[1..] + b;
      ConcatAppend(a[1..], b);
    }
  }

  predicate StartsWith(s: string, p: string)
  {
    |p| <= |s| && s[..|p|] == p
  }

  predicate EndsWith(s: string, p: string)
  {
    |p| <= |s| && s[|s| - |p|..] == p
  }

  /** sub occurs in s at position k. */
  predicate Occurs(s: string, sub: string, k: int)
  {
    0 <= k && k + |sub| <= |s| && s[k..k + |sub|] == sub
  }

  /** Python's s.find(sub, k): the lowest position at or after k where sub occurs, or -1. */
  function FindFrom(s: string, sub: string, k: nat): (r: int)
    requires k <= |s|
    decreases |s| - k
    ensures r == -1 || (k <= r && Occurs(s, sub, r))
    ensures r == -1 ==> forall j :: k <= j ==> !Occurs(s, sub, j)
    ensures r != -1 ==> forall j :: k <= j < r ==> !Occurs(s, sub, j)
  {
    if k + |sub| > |s| then -1
    else if s[k..k + |sub|] == sub then k
    else FindFrom(s, sub, k + 1)
  }

  /** Python's s.find(sub). */
  function Find(s: string, sub: string): (r: int)
    ensures r == -1 <==> forall j :: !Occurs(s, sub, j)
    ensures r != -1 ==> Occurs(s, sub, r) && forall j :: j < r ==> !Occurs(s, sub, j)
  {
    FindFrom(s, sub, 0)
  }

  /** a + sub + b contains sub (at position |a|). */
  lemma OccursInMiddle(a: string, sub: string, b: string)
    ensures Occurs(a + sub + b, sub, |a|)
  {
    assert (a + sub + b)[|a|..|a| + |sub|] == sub;
  }

  /** Python's s.rfind(c) for one character: the last position of c, or -1. */
  function RFind(s: string, c: char): (r: int)
    ensures -1 <= r < |s|
    ensures r >= 0 ==> s[r] == c
    ensures forall j :: r < j < |s| ==> s[j] != c
  {
    if s == [] then -1
    else if s[|s| - 1] == c then |s| - 1
    else RFind(s[..|s| - 1], c)
  }

  /** Python's s[:k] for any integer k: a negative k counts from the end. */
  function Take(s: string, k: int): (r: string)
    ensures k >= 0 ==> |r| == if k <= |s| then k else |s|
    ensures k < 0 ==> |r| == if |s| + k >= 0 then |s| + k else 0
    ensures r == s[..|r|]
  {
    if k >= 0 then (if k <= |s| then s[..k] else s)
    else (if |s| + k >= 0 then s[..|s| + k] else "")
  }

  /** os.path.basename: the text after the last '/'. */
  function Basename(path: string): (r: string)
    ensures '/' !in r
    ensures EndsWith(path, r)
    ensures r == path || path[|path| - |r| - 1] == '/'
  {
    var i := RFind(path, '/');
    AfterLastSlash(path, i);
    path[i + 1..]
  }

  /** The text after the last '/' holds none, is a suffix, and is the whole path or follows a '/'. */
  lemma AfterLastSlash(path: string, i: int)
    requires -1 <= i < |path| && (i >= 0 ==> path[i] == '/')
    requires forall j :: i < j < |path| ==> path[j] != '/'
    ensures '/' !in path[i + 1..]
    ensures EndsWith(path, path[i + 1..])
    ensures path[i + 1..] == path || path[|path| - |path[i + 1..]| - 1] == '/'
  {
    var r := path[i + 1..];
    forall k | 0 <= k < |r| ensures r[k] != '/' {
      assert r[k] == path[i + 1 + k];
    }
    assert path[|path| - |r|..] == r;
  }

  /** ASCII lower-casing, which is what str.lower does on a byte string in the C locale. */
  function LowerChar(c: char): char
  {
    if 'A' <= c <= 'Z' then (c as int + 32) as char else c
  }

  function Lower(s: string): (r: string)
    ensures |r| == |s|
    ensures forall i :: 0 <= i < |s| ==> r[i] == LowerChar(s[i])
  {
    seq(|s|, i requires 0 <= i < |s| => LowerChar(s[i]))
  }

  /** Python's sep.join(parts). */
  function Join(sep: string, parts: seq<string>): string
  {
    if |parts| == 0 then ""
    else if |parts| == 1 then parts[0]
    else parts[0] + sep + Join(sep, parts[1..])
  }

  /** Python's s.split(c) for a one-character separator. */
  function Split(s: string, c: char): (r: seq<string>)
    ensures |r| >= 1
    ensures forall i :: 0 <= i < |r| ==> c !in r[i]
  {
    if s == [] then [""]
    else
      var rest := Split(s[1..], c);
      if s[0] == c then [""] + rest
      else [[s[0]] + rest[0]] + rest[1..]
  }

  /** Joining the pieces of a split with the separator gives back the text. */
  lemma {:induction false} JoinSplit(s: string, c: char)
    ensures Join([c], Split(s, c)) == s
  {
    if s != [] {
      var rest := Split(s[1..], c);
      JoinSplit(s[1..], c);
      if s[0] == c {
        assert Split(s, c) == [""] + rest;
        assert ([""] + rest)[1..] == rest;
      } else {
        var r := Split(s, c);
        assert r == [[s[0]] + rest[0]] + rest[1..];
        if |rest| == 1 {
          assert Join([c], rest) == rest[0];
        } else {
          assert r[1..] == rest[1..];
          assert Join([c], rest) == rest[0] + [c] + Join([c], rest[1..]);
        }
      }
    }
  }

  /** Splitting a join of separator-free pieces gives back the pieces. */
  lemma {:induction false} SplitJoin(parts: seq<string>, c: char)
    requires |parts| >= 1
    requires forall i :: 0 <= i < |parts| ==> c !in parts[i]
    ensures Split(Join([c], parts), c) == parts
  {
    if |parts| == 1 {
      SplitNoSeparator(parts[0], c);
    } else {
      SplitJoin(parts[1..], c);
      SplitAfter(parts[0], c, Join([c], parts[1..]));
      assert [parts[0]] + parts[1..] == parts;
    }
  }

  lemma {:induction false} SplitNoSeparator(s: string, c: char)
    requires c !in s
    ensures Split(s, c) == [s]
  {
    if s != [] {
      SplitNoSeparator(s[1..], c);
      assert [s[0]] + s[1..] == s;
    }
  }

  /** Splitting a + c + b, where a holds no c, yields a followed by the pieces of b. */
  lemma {:induction false} SplitAfter(a: string, c: char, b: string)
    requires c !in a
    ensures Split(a + [c] + b, c) == [a] + Split(b, c)
  {
    if a == [] {
      assert a + [c] + b == [c] + b;
      assert ([c] + b)[1..] == b;
    } else {
      var s := a + [c] + b;
      assert s[1..] == a[1..] + [c] + b;
      SplitAfter(a[1..], c, b);
      assert [a[0]] + a[1..] == a;
    }
  }

  /** The first piece of a split is the text before the first separator. */
  lemma {:induction false} SplitFirstPiece(s: string, c: char)
    ensures var first := Split(s, c)[0];
      && |first| <= |s| && first == s[..|first|] && c !in first
      && (|Split(s, c)| > 1 <==> c in s)
      && (c in s ==> s[|first|] == c)
  {
    if s != [] {
      SplitFirstPiece(s[1..], c);
      if s[0] != c {
        var rest := Split(s[1..], c);
        assert Split(s, c)[0] == [s[0]] + rest[0];
        assert (c in s) == (c in s[1..]);
      }
    }
  }

  /** The decimal digits, in order of value. */
  const Digits: string := "0123456789"

  predicate IsDigits(s: string)
  {
    |s| > 0 && forall i :: 0 <= i < |s| ==> '0' <= s[i] <= '9'
  }

  /** str(n) for a natural number. */
  function NatToString(n: nat): (r: string)
    decreases n
  {
    if n < 10 then [Digits[n]] else NatToString(n / 10) + [Digits[n % 10]]
  }

  /** str(i) and "%d" % i for any integer. */
  function IntToString(i: int): string
  {
    if i < 0 then "-" + NatToString(-i) else NatToString(i)
  }

  /** int(s) for a string of decimal digits. */
  function ParseNat(s: string): nat
    requires IsDigits(s)
    decreases |s|
  {
    var d := s[|s| - 1] as int - '0' as int;
    if |s| == 1 then d else ParseNat(s[..|s| - 1]) * 10 + d
  }

  /** int(str(n)) == n: the decimal rendering is undone by parsing. */
  lemma {:induction false} ParseNatToString(n: nat)
    ensures IsDigits(NatToString(n)) && ParseNat(NatToString(n)) == n
    decreases n
  {
    if n >= 10 {
      ParseNatToString(n / 10);
      var s := NatToString(n);
      assert s[..|s| - 1] == NatToString(n / 10);
    }
  }

  /** Different numbers have different decimal renderings. */
  lemma NatToStringInjective(a: nat, b: nat)
    requires a != b
    ensures NatToString(a) != NatToString(b)
  {
    ParseNatToString(a);
    ParseNatToString(b);
  }

  /** Python's s.split(sep)[1] for a non-empty separator: the text between the first and the second occurrence of sep, or None where indexing raises IndexError. */
  function SecondPiece(s: string, sep: string): (r: Option<string>)
    requires |sep| > 0
    ensures r.None? <==> Find(s, sep) == -1
  {
    var k := Find(s, sep);
    if k == -1 then None
    else
      var rest := s[k + |sep|..];
      var e := Find(rest, sep);
      Some(if e == -1 then rest else rest[..e])
  }

  /** Python's a < b on strings: lexicographic order on code points. */
  predicate Less(a: string, b: string)
    decreases |a|
  {
    if a == [] then b != []
    else if b == [] then false
    else if a[0] != b[0] then a[0] < b[0]
    else Less(a[1..], b[1..])
  }

  lemma {:induction false} LessIrreflexive(a: string)
    ensures !Less(a, a)
    decreases |a|
  {
    if a != [] {
      LessIrreflexive(a[1..]);
    }
  }

  lemma {:induction false} LessTotal(a: string, b: string)
    requires a != b
    ensures Less(a, b) || Less(b, a)
    decreases |a|
  {
    if a != [] && b != [] && a[0] == b[0] {
      assert a == [a[0]] + a[1..] && b == [b[0]] + b[1..];
      LessTotal(a[1..], b[1..]);
    }
  }

  lemma {:induction false} LessAsymmetric(a: string, b: string)
    requires Less(a, b)
    ensures !Less(b, a)
    decreases |a|
  {
    if a != [] && b != [] && a[0] == b[0] {
      LessAsymmetric(a[1..], b[1..]);
    }
  }

  lemma {:induction false} LessTransitive(a: string, b: string, c: string)
    requires Less(a, b) && Less(b, c)
    ensures Less(a, c)
    decreases |a|
  {
    if a != [] && b != [] && c != [] && a[0] == b[0] && b[0] == c[0] {
      LessTransitive(a[1..], b[1..], c[1..]);
    }
  }

  /** Every element is below each later one: sorted, with no element twice. */
  predicate StrictlySorted(s: seq<string>)
  {
    forall i, j :: 0 <= i < j < |s| ==> Less(s[i], s[j])
  }

  /** x placed in front of the first element of s that is not below it. */
  function Insert(x: string, s: seq<string>): (r: seq<string>)
    ensures multiset(r) == multiset(s) + multiset{x}
  {
    if s == [] then [x]
    else if !Less(s[0], x) then [x] + s
    else
      assert s == [s[0]] + s[1..];
      [s[0]] + Insert(x, s[1..])
  }

  /** Python's sorted(s) (what list.sort leaves in the list), for strings. */
  function Sort(s: seq<string>): (r: seq<string>)
    ensures multiset(r) == multiset(s)
  {
    if s == [] then []
    else
      assert s == [s[0]] + s[1..];
      Insert(s[0], Sort(s[1..]))
  }

  lemma {:induction false} InsertStrictlySorted(x: string, s: seq<string>)
    requires StrictlySorted(s) && x !in s
    ensures StrictlySorted(Insert(x, s))
  {
    if s != [] {
      if !Less(s[0], x) {
        LessTotal(x, s[0]);
        forall j | 0 < j < |s| ensures Less(x, s[j]) {
          LessTransitive(x, s[0], s[j]);
        }
      } else {
        InsertStrictlySorted(x, s[1..]);
        var r := Insert(x, s[1..]);
        forall j | 0 <= j < |r| ensures Less(s[0], r[j]) {
          assert r[j] in multiset(r);
        }
      }
    }
  }

  /** Sorting elements that are pairwise different leaves them strictly sorted. */
  lemma {:induction false} SortStrictlySorted(s: seq<string>)
    requires forall i, j :: 0 <= i < j < |s| ==> s[i] != s[j]
    ensures StrictlySorted(Sort(s))
  {
    if s != [] {
      SortStrictlySorted(s[1..]);
      assert s[0] !in multiset(s[1..]);
      InsertStrictlySorted(s[0], Sort(s[1..]));
    }
  }

  /** The members of s in order of first appearance (Python's append-if-not-in loop). */
  function Dedup(s: seq<string>): (r: seq<string>)
    ensures forall x :: x in r <==> x in s
    ensures forall i, j :: 0 <= i < j < |r| ==> r[i] != r[j]
  {
    if s == [] then []
    else
      var d := Dedup(s[..|s| - 1]);
      assert s == s[..|s| - 1] + [s[|s| - 1]];
      if s[|s| - 1] in d then d else d + [s[|s| - 1]]
  }
}
