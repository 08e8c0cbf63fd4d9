/** The record parser for Git's NUL-separated status output, against a printer of that output. */
module GitStatus {
  import opened Wrappers
  import opened Characters
  import opened Utf8
  import opened Ordering

  datatype Change = Change(path: Text, status: Text)

  datatype GitError = ObjectInvalid | OutsideAllowedRoot

  /** By path, then by status. */
  predicate ChangeAtMost(a: Change, b: Change) {
    if a.path == b.path then AtMost(a.status, b.status) else AtMost(a.path, b.path)
  }

  lemma ChangeAtMostIsTotalOrder()
    ensures TotalOrder(ChangeAtMost)
  {
    hide AtMost;
    forall a, b
      ensures ChangeAtMost(a, b) || ChangeAtMost(b, a)
      ensures ChangeAtMost(a, b) && ChangeAtMost(b, a) ==> a == b
    {
      AtMostIsTotal(a.path, b.path);
      AtMostIsTotal(a.status, b.status);
    }
    forall a, b, c | ChangeAtMost(a, b) && ChangeAtMost(b, c) ensures ChangeAtMost(a, c) {
      ChangeAtMostIsTransitive(a, b, c);
    }
  }

  lemma ChangeAtMostIsTransitive(a: Change, b: Change, c: Change)
    requires ChangeAtMost(a, b) && ChangeAtMost(b, c)
    ensures ChangeAtMost(a, c)
  {
    hide AtMost;
    AtMostIsTotal(a.path, b.path);
    if a.path == b.path == c.path {
      AtMostIsTransitive(a.status, b.status, c.status);
    } else if a.path != b.path && b.path != c.path {
      AtMostIsTransitive(a.path, b.path, c.path);
    }
  }

  // --- Records -----------------------------------------------------------------------------------------

  /** The pieces between NUL bytes. */
  function SplitNul(raw: seq<Byte>): (records: seq<seq<Byte>>)
    ensures records != []
  {
    if raw == [] then [[]]
    else
      var rest := SplitNul(raw[1..]);
      if raw[0] == 0 then [[]] + rest else [[raw[0]] + rest[0]] + rest[1..]
  }

  /** The pieces between slashes. */
  function Parts(path: Text): (parts: seq<Text>)
    ensures parts != []
  {
    if path == [] then [[]]
    else
      var rest := Parts(path[1..]);
      if path[0] == '/' as int then [[]] + rest else [[path[0]] + rest[0]] + rest[1..]
  }

  /** A relative path that cannot leave the repository. */
  predicate IsSafe(path: Text) {
    path != [] && 0 !in path && path[0] != '/' as int
    && forall part :: part in Parts(path) ==> part != [] && part != Points(".") && part != Points("..")
  }

  function Strip(s: Text): (r: Text)
    decreases |s|
  {
    if s == [] then []
    else if IsSpace(s[0]) then Strip(s[1..])
    else if IsSpace(s[|s| - 1]) then Strip(s[..|s| - 1])
    else s
  }

  predicate IsAscii(b: seq<Byte>) {
    forall k :: 0 <= k < |b| ==> b[k] < 0x80
  }

  function StatusOf(record: seq<Byte>): (status: seq<Byte>) {
    if |record| <= 2 then record else record[..2]
  }

  function PathOf(record: seq<Byte>): (path: seq<Byte>) {
    if |record| <= 3 then [] else record[3..]
  }

  /** A rename or a copy, which a record with the original path follows. */
  predicate HasOriginal(status: seq<Byte>) {
    'R' as int in status || 'C' as int in status
  }

  /** What the records from this one on amount to. */
  function Parsed(records: seq<seq<Byte>>, index: nat, excluded: Text -> bool): (r: Result<seq<Change>, GitError>)
    decreases |records| - index
  {
    if index >= |records| then Ok([])
    else if records[index] == [] then Parsed(records, index + 1, excluded)
    else
      var status, path := StatusOf(records[index]), Decode(PathOf(records[index]));
      if !IsAscii(status) || path.None? then Err(ObjectInvalid)
      else if !IsSafe(path.value) then Err(OutsideAllowedRoot)
      else
        Prepended(if excluded(path.value) then [] else [Change(path.value, Strip(status))],
          Parsed(records, if HasOriginal(status) then index + 2 else index + 1, excluded))
  }

  function Prepended(changes: seq<Change>, rest: Result<seq<Change>, GitError>): (r: Result<seq<Change>, GitError>) {
    match rest
    case Err(error) => Err(error)
    case Ok(more) => Ok(changes + more)
  }

  lemma PrependedTwice(a: seq<Change>, b: seq<Change>, rest: Result<seq<Change>, GitError>)
    ensures Prepended(a, Prepended(b, rest)) == Prepended(a + b, rest)
    ensures Prepended([], rest) == rest
  {
    if rest.Ok? {
      assert a + (b + rest.value) == (a + b) + rest.value && [] + rest.value == rest.value;
    }
  }

  /** The changes that a status output lists, in order. */
  function StatusChanges(raw: seq<Byte>, excluded: Text -> bool): (r: Result<seq<Change>, GitError>) {
    match Parsed(SplitNul(raw), 0, excluded)
    case Err(error) => Err(error)
    case Ok(changes) => Ok(Sort(changes, ChangeAtMost))
  }

  method WorkingChanges(raw: seq<Byte>, excluded: Text -> bool) returns (r: Result<seq<Change>, GitError>)
    ensures r == StatusChanges(raw, excluded)
  {
    hide SplitNul, Decode, IsSafe, Strip, IsAscii;
    var records := SplitNul(raw);
    var changes: seq<Change> := [];
    var index := 0;
    PrependedTwice([], [], Parsed(records, 0, excluded));
    while index < |records|
      invariant Parsed(records, 0, excluded) == Prepended(changes, Parsed(records, index, excluded))
      decreases |records| - index
    {
      var record := records[index];
      index := index + 1;
      if record == [] {
        continue;
      }
      var status, path := StatusOf(record), Decode(PathOf(record));
      if !IsAscii(status) || path.None? {
        return Err(ObjectInvalid);
      }
      if HasOriginal(status) {
        index := index + 1;
      }
      if !IsSafe(path.value) {
        return Err(OutsideAllowedRoot);
      }
      ghost var own := if excluded(path.value) then [] else [Change(path.value, Strip(status))];
      PrependedTwice(changes, own, Parsed(records, index, excluded));
      if excluded(path.value) {
        assert changes + own == changes;
        continue;
      }
      changes := changes + [Change(path.value, Strip(status))];
    }
    assert changes + [] == changes;
    return Ok(Sort(changes, ChangeAtMost));
  }

  // --- The printer -------------------------------------------------------------------------------------

  /** One line of status: two status letters, a path, and for a rename or copy the path it came from. */
  datatype Entry = Entry(status: seq<Byte>, path: Text, original: Option<seq<Byte>>)

  predicate IsEntry(entry: Entry) {
    && |entry.status| == 2 && IsAscii(entry.status) && 0 !in entry.status
    && IsText(entry.path) && 0 !in entry.path
    && (entry.original.Some? <==>
          entry.status[0] in ['R' as int, 'C' as int] || entry.status[1] in ['R' as int, 'C' as int])
    && (entry.original.Some? ==> 0 !in entry.original.value)
  }

  function PrintEntry(entry: Entry): (raw: seq<Byte>) {
    Record(entry) + [0] + if entry.original.Some? then entry.original.value + [0] else []
  }

  function Record(entry: Entry): (record: seq<Byte>) {
    entry.status + [0x20] + Encode(entry.path)
  }

  function Print(entries: seq<Entry>): (raw: seq<Byte>) {
    if entries == [] then [] else PrintEntry(entries[0]) + Print(entries[1..])
  }

  /** The changes a list of entries stands for. */
  function Changes(entries: seq<Entry>, excluded: Text -> bool): (changes: seq<Change>) {
    if entries == [] then []
    else
      (if excluded(entries[0].path) then [] else [Change(entries[0].path, Strip(entries[0].status))])
      + Changes(entries[1..], excluded)
  }

  lemma {:induction false} SplitRecord(record: seq<Byte>, rest: seq<Byte>)
    requires 0 !in record
    ensures SplitNul(record + [0] + rest) == [record] + SplitNul(rest)
  {
    var raw := record + [0] + rest;
    if record == [] {
      assert raw[1..] == rest;
    } else {
      assert raw[1..] == record[1..] + [0] + rest;
      SplitRecord(record[1..], rest);
      assert [record[0]] + record[1..] == record;
    }
  }

  /** No character but NUL has a zero byte. */
  lemma {:induction false} EncodeHasNoNul(s: Text)
    requires 0 !in s
    ensures 0 !in Encode(s)
  {
    if s == [] {
    } else {
      assert forall k :: 0 <= k < |s[1..]| ==> s[1..][k] in s;
      EncodeHasNoNul(s[1..]);
      assert s[0] in s && 0 !in EncodeOne(s[0]);
    }
  }

  lemma RecordParts(entry: Entry)
    requires IsEntry(entry)
    ensures StatusOf(Record(entry)) == entry.status && Record(entry) != []
            && PathOf(Record(entry)) == Encode(entry.path) && 0 !in Record(entry)
  {
    EncodeHasNoNul(entry.path);
  }

  lemma SplitEntry(entry: Entry, rest: seq<Byte>)
    requires IsEntry(entry)
    ensures SplitNul(PrintEntry(entry) + rest)
         == [Record(entry)] + (if entry.original.Some? then [entry.original.value] else []) + SplitNul(rest)
  {
    hide SplitNul, Record, Encode, StatusOf, PathOf, IsAscii, IsText;
    RecordParts(entry);
    if entry.original.Some? {
      var after := entry.original.value + [0] + rest;
      assert PrintEntry(entry) + rest == Record(entry) + [0] + after;
      SplitRecord(Record(entry), after);
      SplitRecord(entry.original.value, rest);
    } else {
      assert PrintEntry(entry) + rest == Record(entry) + [0] + rest;
      SplitRecord(Record(entry), rest);
    }
  }

  /** Parsing looks only at what lies ahead. */
  lemma {:induction false} ParsedAhead(before: seq<seq<Byte>>, records: seq<seq<Byte>>, index: nat,
                                       excluded: Text -> bool)
    ensures Parsed(before + records, |before| + index, excluded) == Parsed(records, index, excluded)
    decreases |records| - index
  {
    if |records| <= index {
    } else {
      assert (before + records)[|before| + index] == records[index];
      ParsedAhead(before, records, index + 1, excluded);
      ParsedAhead(before, records, index + 2, excluded);
    }
  }

  predicate AllSafe(entries: seq<Entry>) {
    forall k :: 0 <= k < |entries| ==> IsSafe(entries[k].path)
  }

  lemma AllSafeSplits(entries: seq<Entry>)
    requires entries != []
    ensures AllSafe(entries) <==> IsSafe(entries[0].path) && AllSafe(entries[1..])
  {
    hide IsSafe;
    assert forall k :: 0 < k < |entries| ==> entries[k] == entries[1..][k - 1];
  }

  lemma {:induction false} ParsedPrint(entries: seq<Entry>, excluded: Text -> bool)
    requires forall k :: 0 <= k < |entries| ==> IsEntry(entries[k])
    ensures Parsed(SplitNul(Print(entries)), 0, excluded)
         == if AllSafe(entries) then Ok(Changes(entries, excluded)) else Err(OutsideAllowedRoot)
  {
    hide IsSafe, AllSafe, Strip, Encode, Decode, SplitNul, IsEntry, Record;
    if entries == [] {
      assert SplitNul([]) == [[]] && AllSafe([]) by { NoEntries(); }
    } else {
      var entry, rest := entries[0], entries[1..];
      ParsedPrint(rest, excluded);
      ParsedEntry(entry, Print(rest), excluded);
      AllSafeSplits(entries);
    }
  }

  lemma NoEntries()
    ensures SplitNul([]) == [[]] && AllSafe([])
  {
  }

  /** One printed entry is read back, and parsing goes on behind it. */
  lemma ParsedEntry(entry: Entry, rest: seq<Byte>, excluded: Text -> bool)
    requires IsEntry(entry)
    ensures Parsed(SplitNul(PrintEntry(entry) + rest), 0, excluded)
         == if !IsSafe(entry.path) then Err(OutsideAllowedRoot)
            else Prepended(if excluded(entry.path) then []
                           else [Change(entry.path, Strip(entry.status))], Parsed(SplitNul(rest), 0, excluded))
  {
    hide IsSafe, Strip, Encode, Decode, SplitNul, Record, StatusOf, PathOf;
    var records := SplitNul(rest);
    var front := [Record(entry)] + if entry.original.Some? then [entry.original.value] else [];
    SplitEntry(entry, rest);
    RecordParts(entry);
    DecodeEncode(entry.path);
    ParsedAhead(front, records, 0, excluded);
    assert (front + records)[0] == Record(entry) != [];
  }

  /**
    Printed status is recovered: exactly the changes that are not excluded, in order, and an original path
    only when it has an entry of its own. One unsafe path refuses the whole output.
   */
  lemma PrintedStatusIsRecovered(entries: seq<Entry>, excluded: Text -> bool)
    requires forall k :: 0 <= k < |entries| ==> IsEntry(entries[k])
    ensures var r := StatusChanges(Print(entries), excluded);
            && (r.Ok? <==> forall k :: 0 <= k < |entries| ==> IsSafe(entries[k].path))
            && (r.Ok? ==> multiset(r.value) == multiset(Changes(entries, excluded)) && Sorted(r.value, ChangeAtMost))
            && (r.Err? ==> r.error == OutsideAllowedRoot)
  {
    hide IsEntry, IsSafe, Print, SplitNul, Changes, Parsed, Sorted, ChangeAtMost;
    ParsedPrint(entries, excluded);
    ChangeAtMostIsTotalOrder();
    SortIsSorted(Changes(entries, excluded), ChangeAtMost);
  }

  lemma {:induction false} ChangesAreEntries(entries: seq<Entry>, excluded: Text -> bool, change: Change)
    ensures change in Changes(entries, excluded) <==>
              exists k :: 0 <= k < |entries| && !excluded(entries[k].path)
                          && change == Change(entries[k].path, Strip(entries[k].status))
  {
    if entries == [] {
    } else {
      ChangesAreEntries(entries[1..], excluded, change);
      assert forall k :: 0 < k < |entries| ==> entries[k] == entries[1..][k - 1];
      assert forall k :: 0 <= k < |entries[1..]| ==> entries[1..][k] == entries[k + 1];
    }
  }
}
