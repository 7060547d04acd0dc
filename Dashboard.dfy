/**
 * The small helpers of the dashboard page (src/App.jsx): the status tests, the enumeration
 * of calendar days between two dates, the driver list and the driver picker's toggle.
 */
module Dashboard {
  import opened Wrappers
  import opened Js
  import opened Text
  import opened Seqs
  import FinanceJoiner

  /** `n` letters l. */
  function Ls(n: nat): (r: string)
    ensures |r| == n && forall k :: 0 <= k < n ==> r[k] == 'l'
  {
    seq(n, _ => 'l')
  }

  /** The words `/cancel+ed/` accepts: `cance`, then `n >= 1` letters l, then `ed`. */
  function CancelSpelling(n: nat): string {
    "cance" + Ls(n) + "ed"
  }

  /** How many letters l `t` has in a row from position `j`. */
  function RunOfL(t: string, j: nat): (n: nat)
    requires j <= |t|
    ensures j + n <= |t| && (forall k :: j <= k < j + n ==> t[k] == 'l')
    ensures j + n == |t| || t[j + n] != 'l'
    decreases |t| - j
  {
    if j < |t| && t[j] == 'l' then 1 + RunOfL(t, j + 1) else 0
  }

  /**
   * The lower-case text `t` matches `cance`, a run of l, `ed` at position `i`. Since `e` is
   * not `l`, the greedy `l+` can only end where the run of l ends.
   */
  predicate CancelAt(t: string, i: nat) {
    && i + 5 <= |t| && t[i..i + 5] == "cance"
    && var n := RunOfL(t, i + 5);
       n >= 1 && i + 5 + n + 2 <= |t| && t[i + 5 + n..i + 5 + n + 2] == "ed"
  }

  /** `/cancel+ed|cancelled|canceled/i.test(s)`, with ASCII case folding. */
  predicate CanceledText(s: string) {
    var t := Lower(s);
    exists i :: 0 <= i < |t| && CancelAt(t, i)
  }

  /** `isCanceled(s)`: a truthy value whose text matches. */
  predicate IsCanceled(v: Value, numberToString: Number -> string) {
    Truthy(v) && CanceledText(ToJsString(v, numberToString))
  }

  /** `isLate(s)`: a truthy value whose text contains `late`, ignoring case. */
  predicate IsLate(v: Value, numberToString: Number -> string) {
    Truthy(v) && ContainsIgnoreCase(ToJsString(v, numberToString), "late")
  }

  /** Lower-casing a slice is slicing the lower-cased text. */
  lemma LowerSlice(s: string, i: nat, j: nat)
    requires i <= j <= |s|
    ensures Lower(s[i..j]) == Lower(s)[i..j]
  {
  }

  lemma {:induction false} RunOfLExact(t: string, j: nat, n: nat)
    requires j + n <= |t| && (forall k :: j <= k < j + n ==> t[k] == 'l')
    requires j + n == |t| || t[j + n] != 'l'
    ensures RunOfL(t, j) == n
    decreases n
  {
    if n > 0 {
      RunOfLExact(t, j + 1, n - 1);
    }
  }

  /** The word `cance`, `n` letters l, `ed` at position `i` of `t`. */
  lemma SpellingOfParts(t: string, i: nat, n: nat)
    requires i + 5 + n + 2 <= |t|
    requires t[i..i + 5] == "cance" && t[i + 5 + n..i + 5 + n + 2] == "ed"
    requires forall k :: i + 5 <= k < i + 5 + n ==> t[k] == 'l'
    ensures t[i..i + 5 + n + 2] == CancelSpelling(n)
  {
    var w, c := t[i..i + 5 + n + 2], CancelSpelling(n);
    assert |c| == 5 + n + 2;
    assert c[..5] == "cance" && c[5..5 + n] == Ls(n) && c[5 + n..] == "ed";
    assert w[..5] == t[i..i + 5] && w[5 + n..] == t[i + 5 + n..i + 5 + n + 2];
    forall k | 0 <= k < |w| ensures w[k] == c[k] {
      if k < 5 {
        assert w[k] == w[..5][k];
        assert c[k] == c[..5][k];
      } else if k < 5 + n {
        assert w[k] == t[i + k];
        assert c[k] == c[5..5 + n][k - 5];
      } else {
        assert w[k] == w[5 + n..][k - 5 - n];
        assert c[k] == c[5 + n..][k - 5 - n];
      }
    }
  }

  /** The parts of the word at position `i` of `t`. */
  lemma PartsOfSpelling(t: string, i: nat, n: nat)
    requires i + 5 + n + 2 <= |t| && t[i..i + 5 + n + 2] == CancelSpelling(n)
    ensures t[i..i + 5] == "cance" && t[i + 5 + n] == 'e'
    ensures forall k :: i + 5 <= k < i + 5 + n ==> t[k] == 'l'
  {
    var w, c := t[i..i + 5 + n + 2], CancelSpelling(n);
    assert c[..5] == "cance" && c[5..5 + n] == Ls(n) && c[5 + n..] == "ed";
    assert t[i..i + 5] == w[..5];
    assert t[i + 5 + n] == w[5 + n] == c[5 + n..][0];
    forall k | i + 5 <= k < i + 5 + n ensures t[k] == 'l' {
      assert t[k] == w[k - i] == c[5..5 + n][k - i - 5];
    }
  }

  lemma CanceledTextFound(s: string, i: nat)
    requires i < |s| && CancelAt(Lower(s), i)
    ensures OccursAt(s, CancelSpelling(RunOfL(Lower(s), i + 5)), i)
  {
    var t := Lower(s);
    var n := RunOfL(t, i + 5);
    SpellingOfParts(t, i, n);
    LowerSlice(s, i, i + 5 + n + 2);
  }

  lemma CanceledTextOccurs(s: string, i: nat, n: nat)
    requires n >= 1 && OccursAt(s, CancelSpelling(n), i)
    ensures i < |s| && CancelAt(Lower(s), i)
  {
    var t := Lower(s);
    assert |CancelSpelling(n)| == 5 + n + 2;
    LowerSlice(s, i, i + 5 + n + 2);
    PartsOfSpelling(t, i, n);
    RunOfLExact(t, i + 5, n);
    assert t[i + 5 + n..i + 5 + n + 2] == t[i..i + 5 + n + 2][5 + n..] == "ed";
  }

  /** The test is exactly "the text contains `cance`, one or more l, `ed`", ignoring case. */
  lemma CanceledTextSpelled(s: string)
    ensures CanceledText(s) <==> exists i: nat, n: nat :: n >= 1 && OccursAt(s, CancelSpelling(n), i)
  {
    if CanceledText(s) {
      var i :| 0 <= i < |Lower(s)| && CancelAt(Lower(s), i);
      CanceledTextFound(s, i);
    }
    if exists i: nat, n: nat :: n >= 1 && OccursAt(s, CancelSpelling(n), i) {
      var i: nat, n: nat :| n >= 1 && OccursAt(s, CancelSpelling(n), i);
      CanceledTextOccurs(s, i, n);
    }
  }

  /** `cancelled` and `canceled` are `cancel+ed` with two and one l: the other alternatives add nothing. */
  lemma CancelAlternativesRedundant()
    ensures CancelSpelling(1) == "canceled" && CancelSpelling(2) == "cancelled"
  {
    assert Ls(1) == "l" && Ls(2) == "ll";
  }

  /** Two values an export writes for a cancelled load are recognised. */
  lemma CanceledExamples(numberToString: Number -> string)
    ensures IsCanceled(Str("Cancelled"), numberToString)
    ensures IsCanceled(Str("CANCELED"), numberToString)
  {
    var a, b := "Cancelled", "CANCELED";
    assert Lower(a) == "cancelled" && Lower(a)[0..5] == "cance";
    assert RunOfL(Lower(a), 5) == 2 by { RunOfLExact(Lower(a), 5, 2); }
    assert CancelAt(Lower(a), 0);
    assert Lower(b) == "canceled" && Lower(b)[0..5] == "cance";
    assert RunOfL(Lower(b), 5) == 1 by { RunOfLExact(Lower(b), 5, 1); }
    assert CancelAt(Lower(b), 0);
  }

  /** Blank values are never cancelled, and `Cancel` alone is not: the test wants `ed`. */
  lemma NotCanceledExamples(numberToString: Number -> string)
    ensures !IsCanceled(Null, numberToString) && !IsCanceled(Str(""), numberToString)
    ensures !IsCanceled(Str("Cancel"), numberToString)
  {
    var t := Lower("Cancel");
    assert t == "cancel";
    assert RunOfL(t, 5) == 1 by { RunOfLExact(t, 5, 1); }
    assert !CancelAt(t, 0);
    forall i | 1 <= i < |t| ensures !CancelAt(t, i) {
    }
  }

  /**
   * The financials view and the dashboard disagree about a bare `Cancel`: the first tests
   * for `cancel` anywhere, the second wants `cancelled` or `canceled`.
   */
  lemma CancelRulesDiffer()
    ensures FinanceJoiner.Cancelled("Cancel") && !CanceledText("Cancel")
  {
    assert Lower("Cancel") == "cancel";
    assert OccursAt("Cancel", "cancel", 0);
    ContainsIgnoreCaseFinds("Cancel", "cancel");
    NotCanceledExamples(_ => "");
  }

  /** `isLate(s)` holds exactly for a truthy value whose text holds `late` somewhere, ignoring case. */
  lemma IsLateFound(v: Value, numberToString: Number -> string)
    ensures IsLate(v, numberToString) <==> Truthy(v) && exists i: nat :: OccursAt(ToJsString(v, numberToString), "late", i)
  {
    ContainsIgnoreCaseFinds(ToJsString(v, numberToString), "late");
  }

  /** A late arrival status is late in any letter case. */
  lemma LateExamples(numberToString: Number -> string)
    ensures IsLate(Str("Late"), numberToString) && IsLate(Str("Arrived LATE"), numberToString)
  {
    assert Lower("Late") == "late";
    assert OccursAt("Late", "late", 0);
    assert Lower("Arrived LATE"[8..12]) == "late";
    assert OccursAt("Arrived LATE", "late", 8);
    ContainsIgnoreCaseFinds("Late", "late");
    ContainsIgnoreCaseFinds("Arrived LATE", "late");
  }

  /** Text without the letter l is never late. */
  lemma NotLateWithoutL(v: Value, numberToString: Number -> string)
    requires forall k :: 0 <= k < |ToJsString(v, numberToString)| ==> LowerChar(ToJsString(v, numberToString)[k]) != 'l'
    ensures !IsLate(v, numberToString)
  {
    var s := ToJsString(v, numberToString);
    ContainsIgnoreCaseFinds(s, "late");
    forall i: nat ensures !OccursAt(s, "late", i) {
      if i + 4 <= |s| {
        assert Lower(s[i..i + 4])[0] == LowerChar(s[i]);
      }
    }
  }

  /** An on-time status and a blank cell are not late. */
  lemma NotLateExamples(numberToString: Number -> string)
    ensures !IsLate(Str("On Time"), numberToString) && !IsLate(Null, numberToString)
  {
    NotLateWithoutL(Str("On Time"), numberToString);
  }

  /** The local calendar day, as days since 1970-01-01, of a time value in a zone `offset` ms ahead of UTC. */
  function LocalDay(ms: int, offset: int): int {
    (ms + offset) / DayMs
  }

  /** The time value of local midnight on local day `day`. */
  function MidnightOf(day: int, offset: int): int {
    day * DayMs - offset
  }

  /** `d.setHours(0, 0, 0, 0)`: local midnight of the same local day. */
  function LocalMidnight(ms: int, offset: int): (m: int)
    ensures m <= ms < m + DayMs
    ensures LocalDay(m, offset) == LocalDay(ms, offset)
  {
    MidnightOf(LocalDay(ms, offset), offset)
  }

  /** `toDayKey(d)`: the UTC date (`toISOString().slice(0, 10)`) of local midnight of `d`'s local day. */
  function DayKey(ms: int, offset: int): int {
    UtcDay(LocalMidnight(ms, offset))
  }

  /** The key of local day `day`. */
  function KeyOfDay(day: int, offset: int): int {
    UtcDay(MidnightOf(day, offset))
  }

  /** With a fixed offset, the keys of consecutive local days are consecutive. */
  lemma KeysConsecutive(day: int, offset: int)
    ensures KeyOfDay(day + 1, offset) == KeyOfDay(day, offset) + 1
  {
    assert MidnightOf(day + 1, offset) == MidnightOf(day, offset) + DayMs;
  }

  /**
   * `daysBetween(start, end)`. `None` stands for a falsy argument; otherwise the argument is
   * the `Date` that `new Date(...)` makes of it. The result is the keys of the local days from
   * the start's to the end's, inclusive.
   */
  method DaysBetween(start: Option<Date>, end: Option<Date>, offset: int) returns (out: seq<int>)
    ensures !(start.Some? && start.value.Valid? && end.Some? && end.value.Valid?) ==> out == []
    ensures start.Some? && start.value.Valid? && end.Some? && end.value.Valid? ==>
      var s, e := LocalDay(start.value.ms, offset), LocalDay(end.value.ms, offset);
      && |out| == (if s <= e then e - s + 1 else 0)
      && forall k :: 0 <= k < |out| ==> out[k] == KeyOfDay(s + k, offset)
  {
    out := [];
    if start.None? || end.None? {
      return;
    }
    if start.value.Invalid? || end.value.Invalid? {
      // An Invalid Date stays invalid under setHours, and `d <= e` is false on it.
      return;
    }
    var s, e := LocalDay(start.value.ms, offset), LocalDay(end.value.ms, offset);
    var d := LocalMidnight(start.value.ms, offset);
    var last := LocalMidnight(end.value.ms, offset);
    while d <= last
      invariant d == MidnightOf(s + |out|, offset)
      invariant s <= e ==> |out| <= e - s + 1
      invariant s > e ==> out == []
      invariant forall k :: 0 <= k < |out| ==> out[k] == KeyOfDay(s + k, offset)
      decreases last - d
    {
      assert LocalMidnight(d, offset) == d;
      out := out + [DayKey(d, offset)];
      d := d + DayMs;
    }
  }

  /** `toggle(name)` on the selection `prev`: drop every copy of a selected name, append one that is not. */
  function Toggle(prev: seq<string>, name: string): seq<string> {
    if name in prev then Filter(prev, n => n != name) else prev + [name]
  }

  /** Toggling flips whether `name` is selected and leaves every other name as it was. */
  lemma ToggleFlips(prev: seq<string>, name: string)
    ensures name in Toggle(prev, name) <==> name !in prev
    ensures forall n :: n != name ==> (n in Toggle(prev, name) <==> n in prev)
  {
  }

  /** Toggling twice from a state without `name` restores it exactly. */
  lemma ToggleTwice(prev: seq<string>, name: string)
    requires name !in prev
    ensures Toggle(Toggle(prev, name), name) == prev
  {
    var p: string -> bool := n => n != name;
    FilterAppend(prev, [name], p);
    FilterAll(prev, p);
    assert Filter([name], p) == [];
  }

  /** Toggling twice from a state with `name` moves it, once, to the end. */
  lemma ToggleTwiceSelected(prev: seq<string>, name: string)
    requires name in prev
    ensures Toggle(Toggle(prev, name), name) == Filter(prev, n => n != name) + [name]
  {
  }

  /** `(r[COLS.driver] ?? "").toString().trim()` */
  function DriverOf(row: Row, numberToString: Number -> string): string {
    Trim(ToJsString(Coalesce(Get(row, "Drivers"), Str("")), numberToString))
  }

  /** The order of the default `sort()`: compares strings character by character. */
  predicate StrLe(a: string, b: string)
    decreases |a|
  {
    a == [] || (b != [] && (a[0] < b[0] || (a[0] == b[0] && StrLe(a[1..], b[1..]))))
  }

  lemma {:induction false} StrLeTotal(a: string, b: string)
    ensures StrLe(a, b) || StrLe(b, a)
    decreases |a|
  {
    if a != [] && b != [] && a[0] == b[0] {
      StrLeTotal(a[1..], b[1..]);
    }
  }

  lemma {:induction false} StrLeTransitive(a: string, b: string, c: string)
    requires StrLe(a, b) && StrLe(b, c)
    ensures StrLe(a, c)
    decreases |a|
  {
    if a != [] && a[0] == b[0] && b[0] == c[0] {
      StrLeTransitive(a[1..], b[1..], c[1..]);
    }
  }

  lemma StrLeConsistent()
    ensures TotalPreorder(StrLe)
  {
    forall a, b ensures StrLe(a, b) || StrLe(b, a) {
      StrLeTotal(a, b);
    }
    forall a, b, c | StrLe(a, b) && StrLe(b, c) ensures StrLe(a, c) {
      StrLeTransitive(a, b, c);
    }
  }

  function Same(s: string): string { s }

  /** Sorting distinct names keeps them, in strictly increasing order. */
  lemma SortedNames(seen: seq<string>)
    requires DistinctBy(seen, Same)
    ensures forall n :: n in Sort(seen, StrLe) <==> n in seen
    ensures forall i, j :: 0 <= i < j < |Sort(seen, StrLe)| ==> StrLe(Sort(seen, StrLe)[i], Sort(seen, StrLe)[j]) && Sort(seen, StrLe)[i] != Sort(seen, StrLe)[j]
  {
    var names := Sort(seen, StrLe);
    assert forall n :: n in names <==> n in multiset(seen);
    StrLeConsistent();
    PreorderOnAll(seen, StrLe);
    SortSorted(seen, StrLe);
    SortDistinct(seen, StrLe, Same);
    forall i, j | 0 <= i < j < |names| ensures names[i] != names[j] {
      assert Same(names[i]) != Same(names[j]);
    }
  }

  /** The `new Set` of the `drivers` memo: each name that is not empty, once, in order of first appearance. */
  method NonEmptyOnce(ds: seq<string>) returns (seen: seq<string>)
    ensures forall n :: n in seen <==> n != "" && n in ds
    ensures DistinctBy(seen, Same)
  {
    seen := [];
    for i := 0 to |ds|
      invariant forall n :: n in seen <==> n != "" && n in ds[..i]
      invariant DistinctBy(seen, Same)
    {
      assert ds[..i + 1] == ds[..i] + [ds[i]];
      if ds[i] != "" && ds[i] !in seen {
        seen := seen + [ds[i]];
      }
    }
    assert ds[..|ds|] == ds;
  }

  /**
   * The `drivers` memo: every trimmed driver name that is not empty, once each, in the
   * order of the default `sort()`.
   */
  method Drivers(rows: seq<Row>, numberToString: Number -> string) returns (names: seq<string>)
    ensures forall n :: n in names <==> n != "" && exists i :: 0 <= i < |rows| && DriverOf(rows[i], numberToString) == n
    ensures forall i, j :: 0 <= i < j < |names| ==> StrLe(names[i], names[j]) && names[i] != names[j]
  {
    var seen := NonEmptyOnce(Map(rows, row => DriverOf(row, numberToString)));
    names := Sort(seen, StrLe);
    SortedNames(seen);
  }
}
