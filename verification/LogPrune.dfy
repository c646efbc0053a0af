/** Pruning of rotated log files, over a directory of file names. */
module LogPrune {
  import opened Text

  const LOG_PREFIX := "crap-cms.log"

  predicate IsLog(name: string) { LOG_PREFIX <= name }

  // ----- the order of file names -----

  /** Byte-wise order: date-based names sort chronologically. */
  predicate Before(a: string, b: string) {
    if b == [] then false
    else if a == [] then true
    else a[0] < b[0] || (a[0] == b[0] && Before(a[1..], b[1..]))
  }

  /** The names agree up to position `k`, and there the first one has the smaller character. */
  predicate LessAt(a: string, b: string, k: nat) { k < |a| && k < |b| && a[..k] == b[..k] && a[k] < b[k] }

  lemma {:induction false} LessLater(a: string, b: string, k: nat)
    requires a != [] && b != [] && a[0] == b[0]
    ensures !LessAt(a, b, 0) && LessAt(a, b, k + 1) == LessAt(a[1..], b[1..], k)
  {
    if k < |a[1..]| && k < |b[1..]| {
      assert a[..k + 1] == [a[0]] + a[1..][..k] && b[..k + 1] == [b[0]] + b[1..][..k];
      assert a[..k + 1][1..] == a[1..][..k] && b[..k + 1][1..] == b[1..][..k];
    }
  }

  lemma {:induction false} LessBehind(a: string, b: string)
    requires a != [] && b != [] && a[0] == b[0]
    ensures (exists k: nat :: LessAt(a, b, k)) <==> exists k: nat :: LessAt(a[1..], b[1..], k)
  {
    hide LessAt;
    if k: nat :| LessAt(a[1..], b[1..], k) { LessLater(a, b, k); }
    if k: nat :| LessAt(a, b, k) { LessLater(a, b, if k > 0 then k - 1 else 0); }
  }

  lemma {:induction false} LessAtOnce(a: string, b: string, k: nat)
    requires a != [] && b != [] && a[0] != b[0]
    ensures LessAt(a, b, k) <==> k == 0 && a[0] < b[0]
  {
    if 0 < k < |a| && k < |b| { assert a[..k][0] == a[0] && b[..k][0] == b[0]; }
  }

  lemma {:induction false} PrefixTail(a: string, b: string)
    requires a != [] && b != []
    ensures a <= b && a != b <==> a[0] == b[0] && a[1..] <= b[1..] && a[1..] != b[1..]
  {
    assert a == [a[0]] + a[1..] && b == [b[0]] + b[1..];
  }

  /** The first character that differs decides; a name comes before its continuations. */
  lemma {:induction false} BeforeMeans(a: string, b: string)
    ensures Before(a, b) <==> (a <= b && a != b) || exists k: nat :: LessAt(a, b, k)
  {
    if a != [] && b != [] {
      PrefixTail(a, b);
      if a[0] == b[0] {
        BeforeMeans(a[1..], b[1..]);
        LessBehind(a, b);
        hide LessAt;
      } else {
        hide LessAt;
        forall k: nat ensures LessAt(a, b, k) <==> k == 0 && a[0] < b[0] { LessAtOnce(a, b, k); }
        assert LessAt(a, b, 0) <==> a[0] < b[0];
      }
    }
  }

  lemma {:induction false} BeforeTrans(a: string, b: string, c: string)
    requires Before(a, b) && Before(b, c)
    ensures Before(a, c)
  {
    if a != [] && a[0] == b[0] == c[0] { BeforeTrans(a[1..], b[1..], c[1..]); }
  }

  lemma {:induction false} BeforeTotal(a: string, b: string)
    ensures Before(a, b) || a == b || Before(b, a)
    ensures !(Before(a, b) && Before(b, a)) && !Before(a, a)
  {
    if a != [] { BeforeTotal(a[1..], a[1..]); }
    if a != [] && b != [] && a[0] == b[0] {
      BeforeTotal(a[1..], b[1..]);
      assert a == [a[0]] + a[1..] && b == [b[0]] + b[1..];
    }
  }

  // ----- sorting -----

  predicate Distinct(s: seq<string>) { forall i, j :: 0 <= i < j < |s| ==> s[i] != s[j] }

  predicate Ascending(s: seq<string>) { forall i, j :: 0 <= i < j < |s| ==> Before(s[i], s[j]) }

  function Names(s: seq<string>): set<string> { set n | n in s }

  function Insert(s: seq<string>, n: string): (r: seq<string>)
    ensures |r| == |s| + 1
  {
    if s == [] || Before(n, s[0]) then [n] + s else [s[0]] + Insert(s[1..], n)
  }

  function Sorted(s: seq<string>): (r: seq<string>)
    ensures |r| == |s|
  {
    if s == [] then [] else Insert(Sorted(s[1..]), s[0])
  }

  lemma {:induction false} InsertKeeps(s: seq<string>, n: string)
    requires Ascending(s) && n !in s
    ensures Ascending(Insert(s, n)) && Names(Insert(s, n)) == Names(s) + {n}
  {
    var r := Insert(s, n);
    if s == [] {
    } else if Before(n, s[0]) {
      forall j | 0 < j < |s| ensures Before(n, s[j]) { BeforeTrans(n, s[0], s[j]); }
    } else {
      BeforeTotal(n, s[0]);
      assert s[0] in s;
      InsertKeeps(s[1..], n);
      assert Names(s) == {s[0]} + Names(s[1..]);
      assert Names(r) == {s[0]} + Names(Insert(s[1..], n));
      forall j | 0 < j < |r| ensures Before(s[0], r[j]) {
        assert r[j] in Names(Insert(s[1..], n));
        if r[j] != n { var k :| 0 <= k < |s[1..]| && s[1..][k] == r[j]; assert s[k + 1] == r[j]; }
      }
      forall i, j | 0 <= i < j < |r| ensures Before(r[i], r[j]) {
        if i > 0 { assert r[i] == Insert(s[1..], n)[i - 1] && r[j] == Insert(s[1..], n)[j - 1]; }
      }
    }
  }

  lemma {:induction false} DistinctTail(s: seq<string>)
    requires s != [] && Distinct(s)
    ensures Distinct(s[1..]) && s[0] !in s[1..]
  {
    forall i, j | 0 <= i < j < |s[1..]| ensures s[1..][i] != s[1..][j] { assert s[i + 1] != s[j + 1]; }
  }

  /** Sorting keeps the names and puts them in order. */
  lemma {:induction false} SortedIs(s: seq<string>)
    requires Distinct(s)
    ensures Ascending(Sorted(s)) && Names(Sorted(s)) == Names(s)
  {
    if s != [] {
      DistinctTail(s);
      SortedIs(s[1..]);
      assert s[0] !in s[1..];
      assert s[0] !in Names(Sorted(s[1..]));
      InsertKeeps(Sorted(s[1..]), s[0]);
      assert Names(s) == Names(s[1..]) + {s[0]};
    }
  }

  // ----- which files go -----

  /** The names after `n`. */
  function Later(names: set<string>, n: string): set<string> { set m | m in names && Before(n, m) }

  /** Everything after position `k` of an ascending sequence, counted. */
  lemma {:induction false} LaterCount(s: seq<string>, k: nat)
    requires Ascending(s) && k < |s|
    ensures |Later(Names(s), s[k])| == |s| - 1 - k
    decreases |s| - k
  {
    if k == |s| - 1 {
      forall m | m in Names(s) ensures !Before(s[k], m) {
        var i :| 0 <= i < |s| && s[i] == m;
        BeforeTotal(s[k], m);
        if i < k { assert Before(s[i], s[k]); }
      }
      assert Later(Names(s), s[k]) == {};
    } else {
      LaterCount(s, k + 1);
      var next := s[k + 1];
      BeforeTotal(next, next);
      assert Before(s[k], next);
      forall m | m in Names(s) ensures Before(s[k], m) <==> m == next || Before(next, m) {
        var i :| 0 <= i < |s| && s[i] == m;
        BeforeTotal(s[k], m);
        if i <= k { if i < k { assert Before(s[i], s[k]); } BeforeTotal(next, m); assert Before(s[i], next); }
        else if i > k + 1 { assert Before(next, s[i]) && Before(s[k], s[i]); }
      }
      assert Later(Names(s), s[k]) == Later(Names(s), next) + {next};
    }
  }

  /** The names that leave: too far from the newest, and not held back by a failing removal. */
  function Leaving(names: set<string>, maxFiles: nat, failing: set<string>): set<string> {
    set n | n in names && |Later(names, n)| >= maxFiles && n !in failing
  }

  /** The sorted prefix that `prune_old_logs` walks is the set of names with `maxFiles` later ones. */
  lemma {:induction false} PrefixIs(s: seq<string>, maxFiles: nat, i: nat)
    requires Ascending(s) && i < |s|
    ensures i < |s| - maxFiles <==> |Later(Names(s), s[i])| >= maxFiles
  {
    LaterCount(s, i);
  }

  // ----- the directory -----

  class LogDir {
    var entries: seq<string>

    ghost predicate Valid() reads this { Distinct(entries) }

    constructor (names: seq<string>)
      requires Distinct(names)
      ensures entries == names && Valid()
    {
      entries := names;
    }

    ghost function Logs(): set<string> reads this { set n | n in entries && "crap-cms.log" <= n }

    /** The log files, in directory order. */
    method ListLogs() returns (files: seq<string>)
      requires Valid()
      ensures Distinct(files) && Names(files) == Logs()
    {
      files := [];
      var i := 0;
      while i < |entries|
        invariant 0 <= i <= |entries| && Distinct(files)
        invariant forall n :: n in files <==> n in entries[..i] && IsLog(n)
      {
        if IsLog(entries[i]) {
          files := files + [entries[i]];
        }
        i := i + 1;
      }
      assert entries[..i] == entries;
    }

    /** Remove one file; `fails` is what the operating system decides. */
    method RemoveFile(name: string, fails: bool) returns (ok: bool)
      requires Valid() && name in entries
      modifies this
      ensures Valid() && ok == !fails
      ensures Names(entries) == Names(old(entries)) - (if ok then {name} else {})
    {
      if fails {
        return false;
      }
      var i := 0;
      while entries[i] != name
        invariant 0 <= i < |entries| && name in entries[i..]
        decreases |entries| - i
      {
        i := i + 1;
      }
      ghost var before := entries;
      entries := entries[..i] + entries[i + 1..];
      forall n ensures n in entries <==> n in before && n != name {
        if n in before { var k :| 0 <= k < |before| && before[k] == n; if k < i { assert entries[k] == n; } else if k > i { assert entries[k - 1] == n; } }
      }
      return true;
    }

    /** The removal loop over the oldest files. */
    method RemoveOldest(sorted: seq<string>, toRemove: nat, failing: set<string>) returns (removed: nat)
      requires Valid() && Ascending(sorted) && toRemove <= |sorted| && Names(sorted) <= Names(entries)
      modifies this
      ensures Valid()
      ensures Names(entries) == Names(old(entries)) - Gone(sorted, toRemove, failing)
      ensures removed == |Gone(sorted, toRemove, failing)|
    {
      removed := 0;
      var i := 0;
      while i < toRemove
        invariant 0 <= i <= toRemove && Valid()
        invariant removed == |Gone(sorted, i, failing)|
        invariant Names(entries) == Names(old(entries)) - Gone(sorted, i, failing)
      {
        GoneIs(sorted, i, failing);
        NotGone(sorted, i, failing);
        assert sorted[i] in Names(sorted);
        assert sorted[i] in Names(entries);
        var ok := RemoveFile(sorted[i], sorted[i] in failing);
        if ok {
          removed := removed + 1;
        }
        i := i + 1;
      }
    }

    /** Exactly the log files with `maxFiles` newer ones leave, except those whose removal fails;
        the result counts them, and no other file is touched. */
    method Prune(maxFiles: nat, failing: set<string>) returns (removed: nat)
      requires Valid()
      modifies this
      ensures Valid()
      ensures Names(entries) == Names(old(entries)) - Leaving(old(Logs()), maxFiles, failing)
      ensures removed == |Leaving(old(Logs()), maxFiles, failing)|
    {
      hide Leaving, Later, Gone, Sorted, Ascending, Before, Distinct;
      var files := ListLogs();
      SortedIs(files);
      var sorted := Sorted(files);
      if |files| <= maxFiles {
        NoneLeave(sorted, maxFiles, failing);
        return 0;
      }
      AllLeave(sorted, maxFiles, failing);
      assert Names(sorted) <= Names(entries);
      removed := RemoveOldest(sorted, |sorted| - maxFiles, failing);
    }

    /** The newest log file, if there is one. */
    method FindLatest() returns (latest: Option<string>)
      requires Valid()
      ensures latest == Latest(Logs())
    {
      var files := ListLogs();
      SortedIs(files);
      var sorted := Sorted(files);
      if sorted == [] {
        assert files == [] && Names(files) == {};
        return None;
      }
      LastIsLatest(sorted);
      return Some(sorted[|sorted| - 1]);
    }
  }

  /** The first `i` names, those whose removal fails left out. */
  function Gone(sorted: seq<string>, i: nat, failing: set<string>): set<string>
    requires i <= |sorted|
  {
    if i == 0 then {}
    else Gone(sorted, i - 1, failing) + (if sorted[i - 1] in failing then {} else {sorted[i - 1]})
  }

  lemma {:induction false} GoneIs(sorted: seq<string>, i: nat, failing: set<string>)
    requires i <= |sorted|
    ensures forall n :: n in Gone(sorted, i, failing) <==> n in sorted[..i] && n !in failing
  {
    if i > 0 {
      GoneIs(sorted, i - 1, failing);
      assert sorted[..i] == sorted[..i - 1] + [sorted[i - 1]];
    }
  }

  lemma {:induction false} NotGone(sorted: seq<string>, i: nat, failing: set<string>)
    requires Ascending(sorted) && i < |sorted|
    ensures sorted[i] !in Gone(sorted, i, failing)
  {
    GoneIs(sorted, i, failing);
    if sorted[i] in sorted[..i] {
      var k :| 0 <= k < i && sorted[k] == sorted[i];
      BeforeTotal(sorted[i], sorted[i]);
      assert false;
    }
  }

  lemma {:induction false} NoneLeave(sorted: seq<string>, maxFiles: nat, failing: set<string>)
    requires Ascending(sorted) && |sorted| <= maxFiles
    ensures Leaving(Names(sorted), maxFiles, failing) == {}
  {
    forall n | n in Names(sorted) ensures |Later(Names(sorted), n)| < maxFiles {
      var i :| 0 <= i < |sorted| && sorted[i] == n;
      PrefixIs(sorted, maxFiles, i);
    }
  }

  lemma {:induction false} OneLeaves(sorted: seq<string>, m: nat, maxFiles: nat, n: string)
    requires Ascending(sorted) && m == |sorted| - maxFiles && n in Names(sorted)
    ensures n in sorted[..m] <==> |Later(Names(sorted), n)| >= maxFiles
  {
    hide Later, Ascending, Before;
    var i :| 0 <= i < |sorted| && sorted[i] == n;
    PrefixIs(sorted, maxFiles, i);
    if i < m { assert sorted[..m][i] == n; }
    if n in sorted[..m] {
      var k :| 0 <= k < m && sorted[k] == n;
      PrefixIs(sorted, maxFiles, k);
    }
  }

  lemma {:induction false} AllLeave(sorted: seq<string>, maxFiles: nat, failing: set<string>)
    requires Ascending(sorted) && |sorted| > maxFiles
    ensures Gone(sorted, |sorted| - maxFiles, failing) == Leaving(Names(sorted), maxFiles, failing)
  {
    hide Later, Ascending, Before, Gone;
    var m := |sorted| - maxFiles;
    GoneIs(sorted, m, failing);
    forall n | n in Names(sorted) ensures n in sorted[..m] <==> |Later(Names(sorted), n)| >= maxFiles {
      OneLeaves(sorted, m, maxFiles, n);
    }
  }

  // ----- what pruning promises -----

  /** The newest name: no other comes after it. */
  ghost function Latest(names: set<string>): Option<string> {
    if n :| n in names && Later(names, n) == {} then Some(n) else None
  }

  lemma {:induction false} OnlyLatest(names: set<string>, n: string)
    requires n in names && Later(names, n) == {}
    ensures Latest(names) == Some(n)
  {
    forall m | m in names && Later(names, m) == {} ensures m == n {
      BeforeTotal(m, n);
      assert m !in Later(names, n) && n !in Later(names, m);
    }
  }

  lemma {:induction false} LastIsLatest(sorted: seq<string>)
    requires Ascending(sorted) && sorted != []
    ensures Latest(Names(sorted)) == Some(sorted[|sorted| - 1])
  {
    LaterCount(sorted, |sorted| - 1);
    OnlyLatest(Names(sorted), sorted[|sorted| - 1]);
  }

  lemma {:induction false} SortedOf(names: set<string>) returns (s: seq<string>)
    ensures Ascending(s) && Names(s) == names && |s| == |names|
  {
    s := [];
    var left := names;
    while left != {}
      invariant Ascending(s) && left <= names && Names(s) == names - left && |s| == |names| - |left|
      decreases |left|
    {
      var n :| n in left;
      assert n !in Names(s);
      InsertKeeps(s, n);
      s := Insert(s, n);
      left := left - {n};
    }
  }

  /** Every name with fewer than `maxFiles` newer ones stays; at least `maxFiles` names stay, exactly
      that many when no removal fails; the count is of the names that disappeared. */
  lemma {:induction false} PruneKeeps(names: set<string>, maxFiles: nat, failing: set<string>)
    ensures var kept := names - Leaving(names, maxFiles, failing);
            && (forall n | n in names && |Later(names, n)| < maxFiles :: n in kept)
            && (if |names| <= maxFiles then kept == names else |kept| >= maxFiles)
            && (|names| > maxFiles && failing !! names ==> |kept| == maxFiles)
            && |Leaving(names, maxFiles, failing)| == |names| - |kept|
  {
    var s := SortedOf(names);
    LeavingCount(names, maxFiles, failing);
    hide Later, Before, Ascending;
    if |names| <= maxFiles {
      NoneLeave(s, maxFiles, failing);
    } else {
      AllLeave(s, maxFiles, failing);
      GoneCount(s, |s| - maxFiles, failing);
    }
  }

  lemma {:induction false} LeavingCount(names: set<string>, maxFiles: nat, failing: set<string>)
    ensures var gone := Leaving(names, maxFiles, failing); |gone| + |names - gone| == |names|
  {
    hide Later;
    var gone := Leaving(names, maxFiles, failing);
    assert gone + (names - gone) == names;
  }

  lemma {:induction false} GoneCount(sorted: seq<string>, i: nat, failing: set<string>)
    requires Ascending(sorted) && i <= |sorted|
    ensures |Gone(sorted, i, failing)| <= i
    ensures failing !! Names(sorted) ==> |Gone(sorted, i, failing)| == i
  {
    if i > 0 {
      GoneCount(sorted, i - 1, failing);
      NotGone(sorted, i - 1, failing);
      assert sorted[i - 1] in Names(sorted);
    }
  }

  /** Pruning with room for at least one file never changes which file is the newest. */
  lemma {:induction false} PruneKeepsLatest(names: set<string>, maxFiles: nat, failing: set<string>)
    requires maxFiles >= 1
    ensures Latest(names - Leaving(names, maxFiles, failing)) == Latest(names)
  {
    var kept := names - Leaving(names, maxFiles, failing);
    var s := SortedOf(names);
    if names == {} {
      assert kept == {};
    } else {
      LastIsLatest(s);
      var n := s[|s| - 1];
      LaterCount(s, |s| - 1);
      assert n in Names(s);
      assert Later(kept, n) <= Later(names, n);
      OnlyLatest(kept, n);
    }
  }
}
