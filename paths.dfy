/**
  The lexical string and path helpers of Go's standard library that the honeypot relies on
  (`strings.Split`, `strings.SplitN`, `strings.Trim`, `strings.Replace` with n = 1,
  `strings.HasPrefix`, and `path/filepath`'s `Clean`, `Join`, `Dir` and `Base` on Unix).
  Strings are sequences of characters; every separator used here is ASCII, so byte and
  character positions agree on the tests that matter.
*/
module Paths {

  // ---------------------------------------------------------------------------------------
  // Splitting and joining on one separator character
  // ---------------------------------------------------------------------------------------

  /** `strings.Split(s, string(sep))`: the n + 1 pieces around the n separators of `s`. */
  function Split(s: string, sep: char): (r: seq<string>)
    ensures |r| >= 1
    ensures forall i :: 0 <= i < |r| ==> sep !in r[i]
    decreases |s|
  {
    if |s| == 0 then [""]
    else
      var rest := Split(s[1..], sep);
      if s[0] == sep then [""] + rest
      else [[s[0]] + rest[0]] + rest[1..]
  }

  /** `strings.Join(parts, string(sep))`. */
  function JoinWith(parts: seq<string>, sep: char): string
    requires |parts| >= 1
    decreases |parts|
  {
    if |parts| == 1 then parts[0] else parts[0] + [sep] + JoinWith(parts[1..], sep)
  }

  /** Joining the pieces of a split gives back the original string. */
  lemma {:induction false} JoinSplit(s: string, sep: char)
    ensures JoinWith(Split(s, sep), sep) == s
    decreases |s|
  {
    if |s| > 0 {
      var rest := Split(s[1..], sep);
      JoinSplit(s[1..], sep);
      if s[0] == sep {
        assert Split(s, sep) == [""] + rest;
        assert ([""] + rest)[1..] == rest;
        assert JoinWith([""] + rest, sep) == "" + [sep] + JoinWith(rest, sep);
        assert s == [s[0]] + s[1..];
      } else {
        var parts := [[s[0]] + rest[0]] + rest[1..];
        assert Split(s, sep) == parts;
        if |rest| == 1 {
          assert JoinWith(parts, sep) == [s[0]] + rest[0];
        } else {
          assert parts[1..] == rest[1..];
          assert JoinWith(parts, sep) == [s[0]] + rest[0] + [sep] + JoinWith(rest[1..], sep);
          assert JoinWith(rest, sep) == rest[0] + [sep] + JoinWith(rest[1..], sep);
        }
        assert s == [s[0]] + s[1..];
      }
    }
  }

  /** Splitting a separator-free prefix onto the front of a string extends the first piece. */
  lemma {:induction false} SplitPrefix(a: string, t: string, sep: char)
    requires sep !in a
    ensures Split(a + t, sep) == [a + Split(t, sep)[0]] + Split(t, sep)[1..]
    decreases |a|
  {
    if |a| > 0 {
      SplitPrefix(a[1..], t, sep);
      assert (a + t)[1..] == a[1..] + t;
      assert (a + t)[0] == a[0];
      assert [a[0]] + (a[1..] + Split(t, sep)[0]) == a + Split(t, sep)[0];
    } else {
      assert a + t == t;
      assert a + Split(t, sep)[0] == Split(t, sep)[0];
      assert [a + Split(t, sep)[0]] + Split(t, sep)[1..] == Split(t, sep);
    }
  }

  /** A string without the separator splits into itself alone. */
  lemma SplitNoSep(s: string, sep: char)
    requires sep !in s
    ensures Split(s, sep) == [s]
  {
    SplitPrefix(s, "", sep);
    assert Split("", sep) == [""];
    assert s + "" == s;
  }

  /** Splitting the join of separator-free pieces gives back the pieces. */
  lemma {:induction false} SplitJoin(parts: seq<string>, sep: char)
    requires |parts| >= 1
    requires forall i :: 0 <= i < |parts| ==> sep !in parts[i]
    ensures Split(JoinWith(parts, sep), sep) == parts
    decreases |parts|
  {
    if |parts| == 1 {
      SplitNoSep(parts[0], sep);
      assert JoinWith(parts, sep) == parts[0];
      assert parts == [parts[0]];
    } else {
      var tail := JoinWith(parts[1..], sep);
      SplitJoin(parts[1..], sep);
      assert JoinWith(parts, sep) == parts[0] + ([sep] + tail);
      SplitPrefix(parts[0], [sep] + tail, sep);
      assert ([sep] + tail)[1..] == tail;
      assert Split([sep] + tail, sep) == [""] + parts[1..];
      assert parts[0] + "" == parts[0];
      assert ([""] + parts[1..])[1..] == parts[1..];
      assert parts == [parts[0]] + parts[1..];
    }
  }

  // ---------------------------------------------------------------------------------------
  // Trimming, prefix replacement and SplitN
  // ---------------------------------------------------------------------------------------

  function TrimLeft(s: string, c: char): (r: string)
    decreases |s|
  {
    if |s| > 0 && s[0] == c then TrimLeft(s[1..], c) else s
  }

  function TrimRight(s: string, c: char): (r: string)
    decreases |s|
  {
    if |s| > 0 && s[|s| - 1] == c then TrimRight(s[..|s| - 1], c) else s
  }

  /** `strings.Trim(s, string(c))`: drop every leading and trailing `c`. */
  function Trim(s: string, c: char): string
  {
    TrimRight(TrimLeft(s, c), c)
  }

  /** A string made only of `c`. */
  predicate AllChar(s: string, c: char)
  {
    forall i :: 0 <= i < |s| ==> s[i] == c
  }

  /**
    `Trim` cuts `s` into a run of `c`, the result, and a run of `c`, and the result neither
    starts nor ends with `c`.
  */
  lemma {:induction false} TrimShape(s: string, c: char)
    ensures var r := Trim(s, c);
      && (|r| > 0 ==> r[0] != c && r[|r| - 1] != c)
      && exists i, j :: 0 <= i <= j <= |s| && AllChar(s[..i], c) && AllChar(s[j..], c) && r == s[i..j]
  {
    var i := TrimLeftShape(s, c);
    var l := TrimLeft(s, c);
    var j := TrimRightShape(l, c);
    var r := Trim(s, c);
    assert r == l[..j] == s[i..i + j];
    assert s[i + j..] == l[j..];
    if |r| > 0 {
      assert r[0] == l[0];
    }
  }

  lemma {:induction false} TrimLeftShape(s: string, c: char) returns (i: nat)
    ensures i <= |s| && AllChar(s[..i], c) && TrimLeft(s, c) == s[i..]
    ensures |s[i..]| > 0 ==> s[i] != c
    decreases |s|
  {
    if |s| > 0 && s[0] == c {
      var k := TrimLeftShape(s[1..], c);
      i := k + 1;
      assert s[1..][k..] == s[i..];
      assert forall m :: 0 <= m < i ==> s[..i][m] == c by {
        forall m | 0 <= m < i ensures s[..i][m] == c {
          if m > 0 { assert s[..i][m] == s[1..][..k][m - 1]; }
        }
      }
    } else {
      i := 0;
    }
  }

  lemma {:induction false} TrimRightShape(s: string, c: char) returns (j: nat)
    ensures j <= |s| && AllChar(s[j..], c) && TrimRight(s, c) == s[..j]
    ensures j > 0 ==> s[j - 1] != c
    ensures |s| > 0 && s[0] != c ==> j > 0
    decreases |s|
  {
    if |s| > 0 && s[|s| - 1] == c {
      var p := s[..|s| - 1];
      j := TrimRightShape(p, c);
      assert p[..j] == s[..j];
      assert forall m :: j <= m < |s| ==> s[m] == c by {
        forall m | j <= m < |s| ensures s[m] == c {
          if m < |s| - 1 { assert p[j..][m - j] == s[m]; }
        }
      }
    } else {
      j := |s|;
    }
  }

  /** `strings.Trim(s, string(c)) == ""` exactly when `s` is made only of `c`. */
  lemma TrimEmptyIff(s: string, c: char)
    ensures Trim(s, c) == "" <==> AllChar(s, c)
  {
    var i := TrimLeftShape(s, c);
    var l := TrimLeft(s, c);
    var j := TrimRightShape(l, c);
    if !AllChar(s, c) {
      var k :| 0 <= k < |s| && s[k] != c;
      assert s[..i] + s[i..] == s;
      assert k >= i;
      assert l[k - i] == s[k];
      assert k - i < j;
    }
  }

  /** Trimming a character that does not occur changes nothing. */
  lemma TrimAbsent(s: string, c: char)
    requires c !in s
    ensures Trim(s, c) == s
  {
    if |s| > 0 {
      assert s[0] in s && s[|s| - 1] in s;
    }
  }

  /** `strings.Replace(s, pat, rep, 1)` for a non-empty `pat`: replace its first occurrence. */
  function ReplaceFirst(s: string, pat: string, rep: string): (r: string)
    requires |pat| > 0
    ensures pat <= s ==> r == rep + s[|pat|..]
    decreases |s|
  {
    if |s| < |pat| then s
    else if pat <= s then rep + s[|pat|..]
    else [s[0]] + ReplaceFirst(s[1..], pat, rep)
  }

  /** `pat` occurs in `s` at index `i`. */
  predicate OccursAt(s: string, pat: string, i: int)
  {
    0 <= i && i + |pat| <= |s| && s[i..i + |pat|] == pat
  }

  /** Occurrences in `s[1..]` are the occurrences in `s` after index 0, shifted by one. */
  lemma OccursShift(s: string, pat: string)
    requires |s| > 0
    ensures forall i :: 0 <= i ==> (OccursAt(s[1..], pat, i) <==> OccursAt(s, pat, i + 1))
  {
    forall i | 0 <= i ensures OccursAt(s[1..], pat, i) <==> OccursAt(s, pat, i + 1) {
      if 0 <= i && i + |pat| <= |s| - 1 {
        assert s[1..][i..i + |pat|] == s[i + 1..i + 1 + |pat|];
      }
    }
  }

  /** Where `pat` does not occur, `ReplaceFirst` changes nothing. */
  lemma {:induction false} ReplaceFirstAbsent(s: string, pat: string, rep: string)
    requires |pat| > 0
    requires forall i :: !OccursAt(s, pat, i)
    ensures ReplaceFirst(s, pat, rep) == s
    decreases |s|
  {
    if |s| >= |pat| {
      assert !OccursAt(s, pat, 0);
      OccursShift(s, pat);
      ReplaceFirstAbsent(s[1..], pat, rep);
    }
  }

  /** `ReplaceFirst` rewrites the first occurrence of `pat`, at index `i`, and keeps the rest. */
  lemma {:induction false} ReplaceFirstAt(s: string, pat: string, rep: string, i: nat)
    requires |pat| > 0
    requires OccursAt(s, pat, i)
    requires forall k :: 0 <= k < i ==> !OccursAt(s, pat, k)
    ensures ReplaceFirst(s, pat, rep) == s[..i] + rep + s[i + |pat|..]
    decreases i
  {
    if i == 0 {
      assert pat <= s;
    } else {
      var t := s[1..];
      FirstOccurrenceShift(s, pat, i);
      assert ReplaceFirst(s, pat, rep) == [s[0]] + ReplaceFirst(t, pat, rep);
      ReplaceFirstAt(t, pat, rep, i - 1);
      SpliceCons(s, rep, i, |pat|);
    }
  }

  /** Splicing `rep` into `s[1..]` and putting `s[0]` back in front is splicing it into `s`. */
  lemma SpliceCons(s: string, rep: string, i: nat, n: nat)
    requires 0 < i && i + n <= |s|
    ensures [s[0]] + (s[1..][..i - 1] + rep + s[1..][i - 1 + n..]) == s[..i] + rep + s[i + n..]
  {
    var head, tail := s[1..i], s[i + n..];
    assert s[1..][..i - 1] == head && s[1..][i - 1 + n..] == tail;
    assert [s[0]] + head == s[..i];
  }

  /** Past a first character that does not start `pat`, the first occurrence moves one place left. */
  lemma FirstOccurrenceShift(s: string, pat: string, i: nat)
    requires |pat| > 0 && i > 0
    requires OccursAt(s, pat, i)
    requires forall k :: 0 <= k < i ==> !OccursAt(s, pat, k)
    ensures |s| >= |pat| && !(pat <= s)
    ensures OccursAt(s[1..], pat, i - 1)
    ensures forall k :: 0 <= k < i - 1 ==> !OccursAt(s[1..], pat, k)
  {
    assert !OccursAt(s, pat, 0);
    OccursShift(s, pat);
    forall k | 0 <= k < i - 1 ensures !OccursAt(s[1..], pat, k) {
      assert !OccursAt(s, pat, k + 1);
    }
  }

  /** Index of the first occurrence of `c` in `s`, or `-1`. */
  function IndexOf(s: string, c: char): (r: int)
    ensures -1 <= r < |s|
    ensures r >= 0 ==> s[r] == c && c !in s[..r]
    ensures r == -1 ==> c !in s
    decreases |s|
  {
    if |s| == 0 then -1
    else if s[0] == c then 0
    else
      var k := IndexOf(s[1..], c);
      assert k >= 0 ==> s[..k + 1] == [s[0]] + s[1..][..k];
      if k < 0 then -1 else k + 1
  }

  /** Index of the last occurrence of `c` in `s`, or `-1`. */
  function LastIndexOf(s: string, c: char): (r: int)
    ensures -1 <= r < |s|
    ensures r >= 0 ==> s[r] == c
    ensures forall k :: r < k < |s| ==> s[k] != c
    decreases |s|
  {
    if |s| == 0 then -1
    else if s[|s| - 1] == c then |s| - 1
    else LastIndexOf(s[..|s| - 1], c)
  }

  /** `strings.SplitN(s, string(sep), 2)`: the text before the first `sep` and, if there is one, the rest. */
  function SplitFirst(s: string, sep: char): (r: seq<string>)
    ensures 1 <= |r| <= 2
    ensures sep !in r[0]
    ensures |r| == 1 <==> sep !in s
    ensures |r| == 1 ==> r[0] == s
    ensures |r| == 2 ==> s == r[0] + [sep] + r[1]
  {
    var i := IndexOf(s, sep);
    if i < 0 then [s]
    else
      assert s == s[..i] + [sep] + s[i + 1..];
      [s[..i], s[i + 1..]]
  }

  // ---------------------------------------------------------------------------------------
  // path/filepath on Unix: Clean, Join, Dir, Base
  // ---------------------------------------------------------------------------------------

  /** An element that `Clean` keeps as it is. */
  predicate IsNormalSegment(s: string)
  {
    s != "" && s != "." && s != ".." && '/' !in s
  }

  /**
    One element of `Clean`'s scan: empty and `.` elements vanish, `..` removes the last element
    unless that is itself a leading `..`; at the root it vanishes, in a relative path it is kept.
  */
  function CleanStep(stack: seq<string>, seg: string, rooted: bool): seq<string>
  {
    if seg == "" || seg == "." then stack
    else if seg == ".." then
      if |stack| > 0 && stack[|stack| - 1] != ".." then stack[..|stack| - 1]
      else if rooted then stack
      else stack + [".."]
    else stack + [seg]
  }

  /** `Clean`'s left-to-right scan over the elements, from a given stack of kept elements. */
  function CleanFrom(stack: seq<string>, segs: seq<string>, rooted: bool): seq<string>
    decreases |segs|
  {
    if segs == [] then stack else CleanFrom(CleanStep(stack, segs[0], rooted), segs[1..], rooted)
  }

  /** The scan of one element in front of the rest is that element's step, then the rest. */
  lemma CleanFromCons(stack: seq<string>, seg: string, rest: seq<string>, rooted: bool)
    ensures CleanFrom(stack, [seg] + rest, rooted) == CleanFrom(CleanStep(stack, seg, rooted), rest, rooted)
  {
    assert ([seg] + rest)[0] == seg && ([seg] + rest)[1..] == rest;
  }

  /** A normal element is pushed onto the stack. */
  lemma CleanFromNormal(stack: seq<string>, seg: string, rest: seq<string>, rooted: bool)
    requires IsNormalSegment(seg)
    ensures CleanFrom(stack, [seg] + rest, rooted) == CleanFrom(stack + [seg], rest, rooted)
  {
    CleanFromCons(stack, seg, rest, rooted);
  }

  /** In a rooted path, `..` pops a normal element, or vanishes at the root. */
  lemma CleanFromUp(stack: seq<string>, rest: seq<string>)
    requires |stack| <= 1 && (|stack| == 1 ==> stack[0] != "..")
    ensures CleanFrom(stack, [".."] + rest, true) == CleanFrom([], rest, true)
  {
    CleanFromCons(stack, "..", rest, true);
  }

  /** An empty element vanishes. */
  lemma CleanFromEmpty(stack: seq<string>, rest: seq<string>, rooted: bool)
    ensures CleanFrom(stack, [""] + rest, rooted) == CleanFrom(stack, rest, rooted)
  {
    CleanFromCons(stack, "", rest, rooted);
  }

  /**
    The shape of a cleaned element list: no empty, `.` or `/`-holding element, and `..` only as a
    leading run of a relative path (never in a rooted one).
  */
  predicate Canonical(segs: seq<string>, rooted: bool)
  {
    forall i :: 0 <= i < |segs| ==>
      && segs[i] != "" && segs[i] != "." && '/' !in segs[i]
      && (segs[i] == ".." ==> !rooted && forall j :: 0 <= j < i ==> segs[j] == "..")
  }

  /** Joins cleaned elements with `/`; no elements give the empty string. */
  function JoinSegments(segs: seq<string>): string
  {
    if segs == [] then "" else JoinWith(segs, '/')
  }

  /** `filepath.Clean`: the shortest lexically equivalent path. */
  function Clean(path: string): string
  {
    if path == "" then "."
    else
      var rooted := path[0] == '/';
      var segs := CleanFrom([], Split(path, '/'), rooted);
      if rooted then "/" + JoinSegments(segs)
      else if segs == [] then "."
      else JoinSegments(segs)
  }

  /** `filepath.Join(a, b)`: the non-empty elements joined with `/`, then cleaned. */
  function Join(a: string, b: string): string
  {
    if a != "" then Clean(a + "/" + b)
    else if b != "" then Clean(b)
    else ""
  }

  /** `filepath.Dir`: everything up to the last `/`, cleaned. */
  function Dir(path: string): string
  {
    Clean(path[..LastIndexOf(path, '/') + 1])
  }

  /** `filepath.Base`: the last element after trailing slashes are removed. */
  function Base(path: string): string
  {
    if path == "" then "."
    else
      var p := TrimRight(path, '/');
      if p == "" then "/" else p[LastIndexOf(p, '/') + 1..]
  }

  /** Each scan step keeps a canonical stack canonical. */
  lemma CleanStepCanonical(stack: seq<string>, seg: string, rooted: bool)
    requires Canonical(stack, rooted) && '/' !in seg
    ensures Canonical(CleanStep(stack, seg, rooted), rooted)
  {
    var r := CleanStep(stack, seg, rooted);
    if seg == ".." && !(|stack| > 0 && stack[|stack| - 1] != "..") && !rooted {
      forall i | 0 <= i < |r| && r[i] == ".." ensures forall j :: 0 <= j < i ==> r[j] == ".." {
        if i == |stack| {
          if |stack| > 0 {
            assert stack[|stack| - 1] == "..";
          }
        }
      }
    } else if seg != "" && seg != "." && seg != ".." {
      assert forall i :: 0 <= i < |stack| ==> r[i] == stack[i];
    }
  }

  /** `Clean`'s scan always produces a canonical element list. */
  lemma {:induction false} CleanFromCanonical(stack: seq<string>, segs: seq<string>, rooted: bool)
    requires Canonical(stack, rooted)
    requires forall i :: 0 <= i < |segs| ==> '/' !in segs[i]
    ensures Canonical(CleanFrom(stack, segs, rooted), rooted)
    decreases |segs|
  {
    if segs != [] {
      CleanStepCanonical(stack, segs[0], rooted);
      CleanFromCanonical(CleanStep(stack, segs[0], rooted), segs[1..], rooted);
    }
  }

  /** Scanning elements that are already canonical after a stack keeps them all. */
  lemma {:induction false} CleanFromCanonicalIdentity(stack: seq<string>, segs: seq<string>, rooted: bool)
    requires Canonical(stack + segs, rooted)
    ensures CleanFrom(stack, segs, rooted) == stack + segs
    decreases |segs|
  {
    if segs != [] {
      var next := stack + [segs[0]];
      assert (stack + segs)[|stack|] == segs[0];
      if segs[0] == ".." {
        assert forall j :: 0 <= j < |stack| ==> (stack + segs)[j] == "..";
        if |stack| > 0 {
          assert stack[|stack| - 1] == (stack + segs)[|stack| - 1];
        }
      }
      assert CleanStep(stack, segs[0], rooted) == next;
      assert next + segs[1..] == stack + segs;
      CleanFromCanonicalIdentity(next, segs[1..], rooted);
    }
  }

  /** A rooted path never cleans to anything with a `..`, `.` or empty element: `..` cannot climb above `/`. */
  lemma CleanRooted(path: string)
    requires |path| > 0 && path[0] == '/'
    ensures var segs := CleanFrom([], Split(path, '/'), true);
      && Clean(path) == "/" + JoinSegments(segs)
      && forall i :: 0 <= i < |segs| ==> IsNormalSegment(segs[i])
  {
    CleanFromCanonical([], Split(path, '/'), true);
  }

  /** The splitting of a joined canonical list. */
  lemma SplitJoinSegments(segs: seq<string>, rooted: bool)
    requires Canonical(segs, rooted) && segs != []
    ensures Split(JoinSegments(segs), '/') == segs
    ensures |JoinSegments(segs)| > 0 && JoinSegments(segs)[0] != '/'
  {
    SplitJoin(segs, '/');
    assert |segs[0]| > 0;
    var j := JoinSegments(segs);
    if |segs| > 1 {
      assert j == segs[0] + ([ '/' ] + JoinWith(segs[1..], '/'));
    }
    assert j[0] == segs[0][0];
    assert segs[0][0] in segs[0];
  }

  /** A cleaned rooted path is left as it is by `Clean`. */
  lemma CleanRootedFixed(segs: seq<string>)
    requires Canonical(segs, true)
    ensures Clean("/" + JoinSegments(segs)) == "/" + JoinSegments(segs)
  {
    if segs == [] {
      CleanRoot();
    } else {
      CleanRootedSegments(segs);
    }
  }

  /** `/` is clean. */
  lemma CleanRoot()
    ensures Clean("/") == "/"
  {
    SplitLeadingSep("", '/');
    assert ['/'] + "" == "/";
    assert CleanFrom([], ["", ""], true) == [];
  }

  /** `/` followed by a `/`-join of canonical rooted elements is clean. */
  lemma CleanRootedSegments(segs: seq<string>)
    requires Canonical(segs, true) && segs != []
    ensures Clean("/" + JoinWith(segs, '/')) == "/" + JoinWith(segs, '/')
  {
    var j := JoinWith(segs, '/');
    SplitJoinSegments(segs, true);
    SplitLeadingSep(j, '/');
    assert "/" + j == ['/'] + j;
    var all := [""] + segs;
    assert all[1..] == segs;
    assert CleanFrom([], all, true) == CleanFrom([], segs, true);
    CleanFromCanonicalIdentity([], segs, true);
    assert [] + segs == segs;
  }

  /** A cleaned relative path is left as it is by `Clean`. */
  lemma CleanRelativeFixed(segs: seq<string>)
    requires Canonical(segs, false) && segs != []
    ensures Clean(JoinSegments(segs)) == JoinSegments(segs)
  {
    SplitJoinSegments(segs, false);
    CleanFromCanonicalIdentity([], segs, false);
    assert [] + segs == segs;
  }

  /** `.` is clean. */
  lemma CleanDot()
    ensures Clean(".") == "."
  {
    SplitNoSep(".", '/');
  }

  /** Cleaning is idempotent. */
  lemma CleanIdempotent(path: string)
    ensures Clean(Clean(path)) == Clean(path)
  {
    if path != "" {
      var rooted := path[0] == '/';
      var segs := CleanFrom([], Split(path, '/'), rooted);
      CleanFromCanonical([], Split(path, '/'), rooted);
      if rooted {
        CleanRootedFixed(segs);
      } else if segs == [] {
        CleanDot();
      } else {
        CleanRelativeFixed(segs);
      }
    } else {
      CleanDot();
    }
  }

  /** Splitting a string that starts with the separator gives an empty first piece. */
  lemma SplitLeadingSep(x: string, sep: char)
    ensures Split([sep] + x, sep) == [""] + Split(x, sep)
  {
    assert ([sep] + x)[1..] == x;
  }

  /** A `/`-join of normal elements is already clean. */
  lemma CleanNormalRelative(segs: seq<string>)
    requires |segs| > 0
    requires forall i :: 0 <= i < |segs| ==> IsNormalSegment(segs[i])
    ensures Clean(JoinWith(segs, '/')) == JoinWith(segs, '/')
  {
    assert Canonical(segs, false);
    assert JoinSegments(segs) == JoinWith(segs, '/');
    CleanRelativeFixed(segs);
  }

  /** A doubled leading `/` cleans like a single one. */
  lemma CleanDoubleSlash(x: string)
    ensures Clean("/" + "/" + x) == Clean("/" + x)
  {
    var one := ['/'] + x;
    assert "/" + "/" + x == ['/'] + one;
    SplitLeadingSep(one, '/');
    var all := [""] + Split(one, '/');
    assert all[1..] == Split(one, '/');
    assert CleanFrom([], all, true) == CleanFrom([], Split(one, '/'), true);
  }

  /** `filepath.Join("/", p)` of a `/`-join of normal elements puts a single `/` in front. */
  lemma CleanRootedNormal(segs: seq<string>)
    requires |segs| > 0
    requires forall i :: 0 <= i < |segs| ==> IsNormalSegment(segs[i])
    ensures Join("/", JoinWith(segs, '/')) == "/" + JoinWith(segs, '/')
  {
    var j := JoinWith(segs, '/');
    assert Canonical(segs, true);
    assert Join("/", j) == Clean("/" + "/" + j);
    CleanDoubleSlash(j);
    CleanRootedSegments(segs);
  }
}
