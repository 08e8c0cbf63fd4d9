/** What a reported change shows of its entry, which output is refused, and where an accepted path leads. */
module GitReports {
  import opened Wrappers
  import opened Characters
  import opened Utf8
  import opened Ordering
  import opened GitStatus

  // --- What a reported status is -------------------------------------------------------------------

  /** The white space of the ASCII range. */
  predicate IsBlank(b: CodePoint) {
    0x09 <= b <= 0x0D || 0x1C <= b <= 0x20
  }

  /** From `i` to `j` lies all of `s` but the blanks at both ends. */
  predicate IsCore(s: Text, i: nat, j: nat) {
    && i <= j <= |s| && (i < j ==> !IsBlank(s[i]) && !IsBlank(s[j - 1]))
    && (forall k :: 0 <= k < i ==> IsBlank(s[k])) && (forall k :: j <= k < |s| ==> IsBlank(s[k]))
  }

  /** `r` is what remains of `s` without the blanks at both ends. */
  ghost predicate IsTrimmed(s: Text, r: Text) {
    exists i: nat, j: nat :: IsCore(s, i, j) && r == s[i..j]
  }

  lemma {:induction false} StripTrims(s: Text) returns (i: nat, j: nat)
    requires forall k :: 0 <= k < |s| ==> 0 <= s[k] < 0x80
    ensures IsCore(s, i, j) && Strip(s) == s[i..j]
    decreases |s|
  {
    if s == [] {
      i, j := 0, 0;
    } else if IsSpace(s[0]) {
      i, j := StripTrims(s[1..]);
      i, j := i + 1, j + 1;
      BlankBefore(s, i, j);
    } else if IsSpace(s[|s| - 1]) {
      i, j := StripTrims(s[..|s| - 1]);
      BlankBehind(s, i, j);
    } else {
      i, j := 0, |s|;
    }
  }

  lemma BlankBefore(s: Text, i: nat, j: nat)
    requires 0 < i && |s| > 0 && IsBlank(s[0]) && 0 < j && IsCore(s[1..], i - 1, j - 1)
    ensures IsCore(s, i, j) && s[1..][i - 1..j - 1] == s[i..j]
  {
    assert forall k :: 0 < k < |s| ==> s[k] == s[1..][k - 1];
  }

  lemma BlankBehind(s: Text, i: nat, j: nat)
    requires |s| > 0 && IsBlank(s[|s| - 1]) && IsCore(s[..|s| - 1], i, j)
    ensures IsCore(s, i, j) && s[..|s| - 1][i..j] == s[i..j]
  {
    assert forall k :: 0 <= k < |s| - 1 ==> s[k] == s[..|s| - 1][k];
  }

  /** The entry's own path, and its two columns without the blanks around them. */
  ghost predicate Reports(change: Change, entry: Entry) {
    change.path == entry.path && IsTrimmed(entry.status, change.status)
  }

  lemma OwnChangeReports(entry: Entry)
    requires IsEntry(entry)
    ensures Reports(Change(entry.path, Strip(entry.status)), entry)
  {
    var i, j := StripTrims(entry.status);
  }

  /** The entries that are not excluded. */
  function Included(entries: seq<Entry>, excluded: Text -> bool): (ks: set<nat>) {
    set k | 0 <= k < |entries| && !excluded(entries[k].path)
  }

  lemma {:induction false} ChangesCount(entries: seq<Entry>, excluded: Text -> bool)
    ensures |Changes(entries, excluded)| == |Included(entries, excluded)|
  {
    hide Strip;
    if entries == [] {
      assert Included(entries, excluded) == {};
    } else {
      var n := |entries| - 1;
      ChangesCount(entries[..n], excluded);
      LastChange(entries, excluded);
      LastIncluded(entries, excluded);
    }
  }

  lemma LastIncluded(entries: seq<Entry>, excluded: Text -> bool)
    requires entries != []
    ensures var n := |entries| - 1;
            |Included(entries, excluded)|
              == |Included(entries[..n], excluded)| + if excluded(entries[n].path) then 0 else 1
  {
    var n := |entries| - 1;
    var before, own := Included(entries[..n], excluded), if excluded(entries[n].path) then {} else {n};
    forall k ensures k in Included(entries, excluded) <==> k in before || k in own {
      assert 0 <= k < n ==> entries[..n][k] == entries[k];
    }
    assert Included(entries, excluded) == before + own && before * own == {};
  }

  lemma {:induction false} LastChange(entries: seq<Entry>, excluded: Text -> bool)
    requires entries != []
    ensures var n := |entries| - 1;
            |Changes(entries, excluded)|
              == |Changes(entries[..n], excluded)| + if excluded(entries[n].path) then 0 else 1
  {
    hide Strip;
    if |entries| == 1 {
      assert entries[1..] == [] && entries[..0] == [];
    } else {
      var n := |entries| - 1;
      assert entries[1..][..n - 1] == entries[..n][1..];
      LastChange(entries[1..], excluded);
    }
  }

  /** What was reported: each entry that is not excluded, and nothing else. */
  ghost predicate AllReported(entries: seq<Entry>, excluded: Text -> bool, changes: seq<Change>) {
    && |changes| == |Included(entries, excluded)|
    && (forall change :: change in changes ==> StandsFor(entries, excluded, change))
    && (forall k :: k in Included(entries, excluded) ==> IsReported(changes, entries[k]))
  }

  ghost predicate StandsFor(entries: seq<Entry>, excluded: Text -> bool, change: Change) {
    exists k :: k in Included(entries, excluded) && Reports(change, entries[k])
  }

  ghost predicate IsReported(changes: seq<Change>, entry: Entry) {
    exists change :: change in changes && Reports(change, entry)
  }

  lemma ChangeStands(entries: seq<Entry>, excluded: Text -> bool, change: Change)
    requires forall k :: 0 <= k < |entries| ==> IsEntry(entries[k])
    requires change in Changes(entries, excluded)
    ensures StandsFor(entries, excluded, change)
  {
    hide IsEntry, Changes, Strip, Reports;
    ChangesAreEntries(entries, excluded, change);
    var k :| 0 <= k < |entries| && !excluded(entries[k].path)
      && change == Change(entries[k].path, Strip(entries[k].status));
    OwnChangeReports(entries[k]);
    assert k in Included(entries, excluded);
  }

  lemma EntryIsReported(entries: seq<Entry>, excluded: Text -> bool, k: nat)
    requires k < |entries| && IsEntry(entries[k]) && !excluded(entries[k].path)
    ensures IsReported(Changes(entries, excluded), entries[k])
  {
    hide IsEntry, Changes, Strip, Reports;
    OwnChangeReports(entries[k]);
    ChangesAreEntries(entries, excluded, Change(entries[k].path, Strip(entries[k].status)));
  }

  lemma ChangesAreReported(entries: seq<Entry>, excluded: Text -> bool, changes: seq<Change>)
    requires forall k :: 0 <= k < |entries| ==> IsEntry(entries[k])
    requires multiset(changes) == multiset(Changes(entries, excluded))
    ensures AllReported(entries, excluded, changes)
  {
    hide IsEntry, Changes, StandsFor, IsReported;
    var all := Changes(entries, excluded);
    ChangesCount(entries, excluded);
    assert |changes| == |multiset(changes)| && |all| == |multiset(all)|;
    forall change | change in changes ensures StandsFor(entries, excluded, change) {
      assert change in multiset(changes) && change in multiset(all);
      ChangeStands(entries, excluded, change);
    }
    forall k | k in Included(entries, excluded) ensures IsReported(changes, entries[k]) {
      EntryIsReported(entries, excluded, k);
      SameReports(all, changes, entries[k]);
    }
  }

  lemma SameReports(a: seq<Change>, b: seq<Change>, entry: Entry)
    requires multiset(a) == multiset(b) && IsReported(a, entry)
    ensures IsReported(b, entry)
  {
    hide Reports;
    var change :| change in a && Reports(change, entry);
    assert change in multiset(a) && change in multiset(b);
  }

  /**
    What is reported of printed status, when it is accepted: for each entry that is not excluded its path and
    its status without the blanks around it, as often as there are such entries, by path and then by status.
   */
  lemma ReportedChanges(entries: seq<Entry>, excluded: Text -> bool)
    requires forall k :: 0 <= k < |entries| ==> IsEntry(entries[k])
    requires StatusChanges(Print(entries), excluded).Ok?
    ensures var changes := StatusChanges(Print(entries), excluded).value;
            && AllReported(entries, excluded, changes)
            && forall i, j :: 0 <= i < j < |changes| ==> InReportOrder(changes[i], changes[j])
  {
    hide IsEntry, Print, Changes, StatusChanges, Sorted, IsSafe, AllReported, InReportOrder, ChangeAtMost;
    var changes := StatusChanges(Print(entries), excluded).value;
    PrintedStatusIsRecovered(entries, excluded);
    ChangesAreReported(entries, excluded, changes);
    forall i, j | 0 <= i < j < |changes| ensures InReportOrder(changes[i], changes[j]) {
      SortedAt(changes, ChangeAtMost, i, j);
      OrderMeans(changes[i], changes[j]);
    }
  }

  /** By path, code point by code point, then by status. */
  ghost predicate InReportOrder(a: Change, b: Change) {
    Precedes(a.path, b.path) || (a.path == b.path && (a.status == b.status || Precedes(a.status, b.status)))
  }

  lemma OrderMeans(a: Change, b: Change)
    requires ChangeAtMost(a, b)
    ensures InReportOrder(a, b)
  {
    hide AtMost, Precedes;
    AtMostIsLexicographic(a.path, b.path);
    AtMostIsLexicographic(a.status, b.status);
  }

  lemma SortedAt<T>(s: seq<T>, le: (T, T) -> bool, i: nat, j: nat)
    requires Sorted(s, le) && i < j < |s|
    ensures le(s[i], s[j])
  {
  }

  // --- Output that is refused ------------------------------------------------------------------------

  /** Columns that are not ASCII, or a path that is not UTF-8. */
  predicate IsInvalid(record: seq<Byte>) {
    || (exists k :: 0 <= k < |record| && k < 2 && record[k] >= 0x80)
    || (|record| > 3 && Decode(record[3..]).None?)
  }

  lemma {:induction false} ParsedInvalid(entries: seq<Entry>, record: seq<Byte>, rest: seq<Byte>,
                                         excluded: Text -> bool)
    requires (forall k :: 0 <= k < |entries| ==> IsEntry(entries[k])) && IsInvalid(record) && 0 !in record
    ensures Parsed(SplitNul(Print(entries) + (record + [0] + rest)), 0, excluded)
         == Err(if AllSafe(entries) then ObjectInvalid else OutsideAllowedRoot)
  {
    hide IsSafe, AllSafe, SplitNul, IsEntry, PrintEntry, Strip, IsInvalid, Parsed;
    var tail := record + [0] + rest;
    if entries == [] {
      SplitRecord(record, rest);
      InvalidRecord(record, SplitNul(rest), excluded);
      assert Print(entries) + tail == tail;
      NoEntries();
    } else {
      ParsedInvalid(entries[1..], record, rest, excluded);
      var after := Print(entries[1..]) + tail;
      assert Print(entries) + tail == PrintEntry(entries[0]) + after;
      ParsedEntry(entries[0], after, excluded);
      AllSafeSplits(entries);
    }
  }

  /** One invalid record refuses the whole output, unless an unsafe path before it does. */
  lemma InvalidRecordIsRefused(entries: seq<Entry>, record: seq<Byte>, rest: seq<Byte>, excluded: Text -> bool)
    requires (forall k :: 0 <= k < |entries| ==> IsEntry(entries[k])) && IsInvalid(record) && 0 !in record
    ensures StatusChanges(Print(entries) + record + [0] + rest, excluded)
         == Err(if AllSafe(entries) then ObjectInvalid else OutsideAllowedRoot)
  {
    hide AllSafe, SplitNul, IsEntry, Print, IsInvalid, Parsed, Sort;
    ParsedInvalid(entries, record, rest, excluded);
    assert Print(entries) + record + [0] + rest == Print(entries) + (record + [0] + rest);
  }

  lemma InvalidRecord(record: seq<Byte>, records: seq<seq<Byte>>, excluded: Text -> bool)
    requires IsInvalid(record)
    ensures Parsed([record] + records, 0, excluded) == Err(ObjectInvalid)
  {
    hide Decode, IsSafe;
    assert ([record] + records)[0] == record;
    assert |record| > 0;
  }

  // --- Where an accepted path leads ----------------------------------------------------------------

  /** Following the parts of a path from a directory below the root, or leaving the root. */
  function Followed(parts: seq<Text>, at: seq<Text>): (end: Option<seq<Text>>) {
    if parts == [] then Some(at)
    else if parts[0] == [] || parts[0] == ['.' as int] then Followed(parts[1..], at)
    else if parts[0] == ['.' as int, '.' as int] then
      if at == [] then None else Followed(parts[1..], at[..|at| - 1])
    else Followed(parts[1..], at + [parts[0]])
  }

  function Joined(parts: seq<Text>): (path: Text)
    requires parts != []
  {
    if |parts| == 1 then parts[0] else parts[0] + ['/' as int] + Joined(parts[1..])
  }

  lemma {:induction false} PartsJoin(path: Text)
    ensures Joined(Parts(path)) == path
    ensures forall k :: 0 <= k < |Parts(path)| ==> '/' as int !in Parts(path)[k]
  {
    if path == [] {
    } else {
      PartsJoin(path[1..]);
      var rest := Parts(path[1..]);
      assert path == [path[0]] + path[1..];
      if path[0] == '/' as int {
        assert ([[]] + rest)[1..] == rest;
      } else {
        var parts := [[path[0]] + rest[0]] + rest[1..];
        assert parts[1..] == rest[1..];
        assert Joined(parts) == [path[0]] + Joined(rest);
      }
    }
  }

  predicate IsName(part: Text) {
    part != [] && part != ['.' as int] && part != ['.' as int, '.' as int]
  }

  lemma {:induction false} FollowedLength(parts: seq<Text>, at: seq<Text>)
    ensures Followed(parts, at).Some? ==> |Followed(parts, at).value| <= |at| + |parts|
    ensures (forall k :: 0 <= k < |parts| ==> IsName(parts[k])) <==> Followed(parts, at) == Some(at + parts)
  {
    if parts == [] {
      assert at + parts == at;
    } else {
      assert at + parts == at + [parts[0]] + parts[1..];
      assert forall k :: 0 < k < |parts| ==> parts[k] == parts[1..][k - 1];
      assert forall k :: 0 <= k < |parts[1..]| ==> parts[1..][k] == parts[k + 1];
      FollowedLength(parts[1..], at);
      FollowedLength(parts[1..], at + [parts[0]]);
      if at != [] {
        FollowedLength(parts[1..], at[..|at| - 1]);
      }
    }
  }

  /**
    A path is accepted if and only if following its parts from the root visits each of them and nothing
    else, so it never leaves the root.
   */
  lemma SafePathStaysBelow(path: Text)
    ensures IsSafe(path) <==> 0 !in path && Followed(Parts(path), []) == Some(Parts(path))
  {
    hide Parts, Followed;
    FollowedLength(Parts(path), []);
    assert [] + Parts(path) == Parts(path);
    assert Points(".") == ['.' as int] && Points("..") == ['.' as int, '.' as int];
    assert path == [] || path[0] == '/' as int ==> Parts(path)[0] == [] by { FirstPart(path); }
    assert (forall part :: part in Parts(path) ==> IsName(part))
      <==> (forall k :: 0 <= k < |Parts(path)| ==> IsName(Parts(path)[k]));
  }

  lemma FirstPart(path: Text)
    ensures path == [] || path[0] == '/' as int ==> Parts(path)[0] == []
  {
  }
}
