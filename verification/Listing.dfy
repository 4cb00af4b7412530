/**
  The bounded folder listing (directories.rs, list).

  The entries arrive as the folder is read, in no order; a heap keeps the lexicographically first
  directories among the entries scanned, and the sorted list is then cut to a response size. Names
  are UTF-8 bytes; JSON text has one character per byte. How a folder entry is spelled in JSON is a
  parameter; the text before the entries is one too, until `Head` spells it out.
 */
module Directories {
  import opened Common

  type Name = seq<Byte>
  type Json = string

  const MAX_ENTRIES := 512
  const MAX_SCANNED := 16384
  const MAX_RESPONSE := 512 * 1024

  /** An entry read from the folder: an I/O error, not a directory or not UTF-8, or a directory. */
  datatype Found = Failed | Skipped | Directory(name: Name)

  datatype Result = Failure | Listed(names: seq<Name>, truncated: bool)

  // ---------------------------------------------------------------- order of names

  /** The order of Rust strings: bytewise, lexicographic. */
  predicate Less(a: Name, b: Name) {
    if a == [] then b != []
    else if b == [] then false
    else if a[0] != b[0] then a[0] < b[0]
    else Less(a[1..], b[1..])
  }

  /** `a` is before `b` byte by byte: at the first difference, or by ending there. */
  ghost predicate Before(a: Name, b: Name) {
    exists k: nat :: BeforeAt(a, b, k)
  }

  predicate BeforeAt(a: Name, b: Name, k: nat) {
    k <= |a| && k < |b| && a[..k] == b[..k] && (k == |a| || a[k] < b[k])
  }

  lemma {:induction false} FirstDifference(a: Name, b: Name) returns (k: nat)
    requires Less(a, b)
    ensures BeforeAt(a, b, k)
  {
    if a != [] && b != [] && a[0] == b[0] {
      k := FirstDifference(a[1..], b[1..]);
      k := k + 1;
      assert a[..k] == [a[0]] + a[1..][..k - 1] && b[..k] == [b[0]] + b[1..][..k - 1];
    } else {
      k := 0;
    }
  }

  lemma {:induction false} BeforeIsLess(a: Name, b: Name, k: nat)
    requires BeforeAt(a, b, k)
    ensures Less(a, b)
  {
    if k > 0 {
      assert a[0] == a[..k][0] == b[..k][0] == b[0];
      assert a[1..][..k - 1] == a[..k][1..] && b[1..][..k - 1] == b[..k][1..];
      BeforeIsLess(a[1..], b[1..], k - 1);
    }
  }

  /** So names are compared by their bytes, the first difference deciding and a prefix coming first. */
  lemma LessIsBytewise(a: Name, b: Name)
    ensures Less(a, b) <==> Before(a, b)
  {
    if Less(a, b) {
      var k := FirstDifference(a, b);
    }
    if k: nat :| BeforeAt(a, b, k) {
      BeforeIsLess(a, b, k);
    }
  }

  lemma {:induction false} LessIsTransitive(a: Name, b: Name, c: Name)
    requires !Less(b, a) && !Less(c, b)
    ensures !Less(c, a)
  {
    if a != [] && b != [] && c != [] && a[0] == b[0] == c[0] {
      LessIsTransitive(a[1..], b[1..], c[1..]);
    }
  }

  lemma {:induction false} LessIsStrict(a: Name, b: Name)
    ensures !(Less(a, b) && Less(b, a))
    ensures !Less(a, b) && !Less(b, a) ==> a == b
  {
    if a != [] && b != [] && a[0] == b[0] {
      LessIsStrict(a[1..], b[1..]);
      assert a == [a[0]] + a[1..] && b == [b[0]] + b[1..];
    }
  }

  ghost predicate Ascending(s: seq<Name>) {
    forall i, j :: 0 <= i < j < |s| ==> !Less(s[j], s[i])
  }

  /** The abstract value of the heap is its ascending list; pushing inserts. */
  function Insert(x: Name, s: seq<Name>): seq<Name> {
    if s == [] then [x]
    else if Less(x, s[0]) then [x] + s
    else [s[0]] + Insert(x, s[1..])
  }

  function Sort(names: seq<Name>): seq<Name> {
    if names == [] then [] else Insert(names[|names| - 1], Sort(names[..|names| - 1]))
  }

  function Min(a: nat, b: nat): nat {
    if a < b then a else b
  }

  function Take(s: seq<Name>, n: nat): seq<Name> {
    s[..Min(n, |s|)]
  }

  lemma {:induction false} InsertKeeps(x: Name, s: seq<Name>)
    ensures multiset(Insert(x, s)) == multiset(s) + multiset{x}
    ensures |Insert(x, s)| == |s| + 1
  {
    if s != [] {
      assert s == [s[0]] + s[1..];
      InsertKeeps(x, s[1..]);
    }
  }

  /** Lower bounds survive insertion. */
  lemma {:induction false} InsertAbove(low: Name, x: Name, s: seq<Name>)
    requires !Less(x, low) && forall i :: 0 <= i < |s| ==> !Less(s[i], low)
    ensures forall i :: 0 <= i < |Insert(x, s)| ==> !Less(Insert(x, s)[i], low)
  {
    if s != [] {
      InsertAbove(low, x, s[1..]);
    }
  }

  lemma {:induction false} InsertAscends(x: Name, s: seq<Name>)
    requires Ascending(s)
    ensures Ascending(Insert(x, s))
  {
    if s != [] {
      LessIsStrict(x, s[0]);
      if Less(x, s[0]) {
        forall j | 0 <= j < |s| ensures !Less(s[j], x) {
          if j > 0 {
            LessIsTransitive(x, s[0], s[j]);
          }
        }
      } else {
        InsertAscends(x, s[1..]);
        InsertAbove(s[0], x, s[1..]);
      }
    }
  }

  /** `Sort` is a sort: ascending, and a permutation. */
  lemma {:induction false} SortSorts(names: seq<Name>)
    ensures Ascending(Sort(names)) && multiset(Sort(names)) == multiset(names)
    ensures |Sort(names)| == |names|
  {
    if names != [] {
      var n := |names| - 1;
      SortSorts(names[..n]);
      InsertAscends(names[n], Sort(names[..n]));
      InsertKeeps(names[n], Sort(names[..n]));
      assert names == names[..n] + [names[n]];
    }
  }

  // ---------------------------------------------------------------- the one-pass heap

  /** Push while there is room, else replace the largest if the name is smaller. */
  function Offered(heap: seq<Name>, x: Name, room: nat): seq<Name> {
    if |heap| < room then Insert(x, heap)
    else if heap != [] && Less(x, heap[|heap| - 1]) then Insert(x, heap[..|heap| - 1])
    else heap
  }

  lemma {:induction false} NotSmallerStaysOut(x: Name, s: seq<Name>, room: nat)
    requires room <= |s| && forall i :: 0 <= i < room ==> !Less(x, s[i])
    ensures |Insert(x, s)| == |s| + 1 && Insert(x, s)[..room] == s[..room]
    decreases |s|
  {
    InsertKeeps(x, s);
    if room > 0 {
      NotSmallerStaysOut(x, s[1..], room - 1);
      assert s[..room] == [s[0]] + s[1..][..room - 1];
    }
  }

  lemma {:induction false} SmallerPushesOut(x: Name, s: seq<Name>, room: nat)
    requires Ascending(s) && 0 < room <= |s| && Less(x, s[room - 1])
    ensures |Insert(x, s)| == |s| + 1 && Insert(x, s)[..room] == Insert(x, s[..room - 1])
    decreases |s|
  {
    InsertKeeps(x, s);
    if Less(x, s[0]) {
      assert ([x] + s)[..room] == [x] + s[..room - 1];
    } else {
      SmallerPushesOut(x, s[1..], room - 1);
      assert s[..room - 1] == [s[0]] + s[1..][..room - 2];
    }
  }

  lemma OfferToFull(x: Name, s: seq<Name>, room: nat)
    requires Ascending(s) && 0 < room <= |s|
    ensures |Insert(x, s)| == |s| + 1 && Insert(x, s)[..room] == Offered(s[..room], x, room)
  {
    InsertKeeps(x, s);
    assert s[..room][..room - 1] == s[..room - 1];
    if Less(x, s[room - 1]) {
      SmallerPushesOut(x, s, room);
    } else {
      forall i | 0 <= i < room ensures !Less(x, s[i]) {
        if i < room - 1 {
          LessIsTransitive(s[i], s[room - 1], x);
        }
      }
      NotSmallerStaysOut(x, s, room);
    }
  }

  /** One offer to the heap keeps it the first `room` names of the whole sorted list. */
  lemma TakeInsert(x: Name, s: seq<Name>, room: nat)
    requires Ascending(s) && room > 0
    ensures Take(Insert(x, s), room) == Offered(Take(s, room), x, room)
  {
    InsertKeeps(x, s);
    if |s| >= room {
      OfferToFull(x, s, room);
    } else {
      assert s[..|s|] == s && Insert(x, s)[..|s| + 1] == Insert(x, s);
    }
  }

  function Names(entries: seq<Found>): seq<Name> {
    if entries == [] then []
    else
      var n := |entries| - 1;
      Names(entries[..n]) + if entries[n].Directory? then [entries[n].name] else []
  }

  function Scanned(entries: seq<Found>): seq<Found> {
    entries[..Min(MAX_SCANNED, |entries|)]
  }

  method Offer(heap: seq<Name>, name: Name) returns (heap': seq<Name>, full: bool)
    requires |heap| <= MAX_ENTRIES
    ensures heap' == Offered(heap, name, MAX_ENTRIES) && (full <==> |heap| == MAX_ENTRIES)
  {
    heap', full := heap, false;
    if |heap'| < MAX_ENTRIES {
      heap' := Insert(name, heap');
    } else {
      full := true;
      if Less(name, heap'[|heap'| - 1]) {
        heap' := heap'[..|heap'| - 1];
        heap' := Insert(name, heap');
      }
    }
  }

  /** The heap after one more name is the first names of the longer list, sorted. */
  lemma OneMoreName(names: seq<Name>, name: Name)
    ensures |Take(Sort(names), MAX_ENTRIES)| == Min(MAX_ENTRIES, |names|)
    ensures Take(Sort(names + [name]), MAX_ENTRIES) == Offered(Take(Sort(names), MAX_ENTRIES), name, MAX_ENTRIES)
  {
    SortSorts(names);
    TakeInsert(name, Sort(names), MAX_ENTRIES);
    assert (names + [name])[..|names|] == names;
  }

  lemma OneMoreEntry(entries: seq<Found>, i: nat)
    requires i < |entries|
    ensures Names(entries[..i + 1])
            == if entries[i].Directory? then Names(entries[..i]) + [entries[i].name] else Names(entries[..i])
    ensures entries[..i + 1] == entries[..i] + [entries[i]]
  {
    assert entries[..i + 1][..i] == entries[..i];
  }

  /** After `i` entries: no error, the heap as it should be, and whether a name was surplus. */
  ghost predicate Scanning(entries: seq<Found>, i: nat, heap: seq<Name>, truncated: bool) {
    && i <= |entries| && i <= MAX_SCANNED && Failed !in entries[..i]
    && heap == Take(Sort(Names(entries[..i])), MAX_ENTRIES) && |heap| == Min(MAX_ENTRIES, |Names(entries[..i])|)
    && (truncated <==> |Names(entries[..i])| > MAX_ENTRIES)
  }

  lemma ScanOneMore(entries: seq<Found>, i: nat, heap: seq<Name>, truncated: bool)
    requires Scanning(entries, i, heap, truncated) && i < |entries| && i < MAX_SCANNED && !entries[i].Failed?
    ensures |heap| <= MAX_ENTRIES
    ensures if entries[i].Directory?
            then Scanning(entries, i + 1, Offered(heap, entries[i].name, MAX_ENTRIES), truncated || |heap| == MAX_ENTRIES)
            else Scanning(entries, i + 1, heap, truncated)
  {
    OneMoreEntry(entries, i);
    if entries[i].Directory? {
      OneMoreName(Names(entries[..i]), entries[i].name);
      SortSorts(Names(entries[..i + 1]));
    }
  }

  method Select(entries: seq<Found>) returns (r: Result)
    ensures r == if Failed in Scanned(entries) then Failure
                 else Listed(Take(Sort(Names(Scanned(entries))), MAX_ENTRIES),
                             |entries| > MAX_SCANNED || |Names(Scanned(entries))| > MAX_ENTRIES)
  {
    var heap: seq<Name>, truncated := [], false;
    var i: nat := 0;
    while i < |entries|
      invariant Scanning(entries, i, heap, truncated)
    {
      if i == MAX_SCANNED {
        return Listed(heap, true);
      }
      if entries[i].Failed? {
        assert Scanned(entries)[i] == Failed;
        return Failure;
      }
      ScanOneMore(entries, i, heap, truncated);
      if entries[i].Directory? {
        var full;
        heap, full := Offer(heap, entries[i].name);
        truncated := truncated || full;
      }
      i := i + 1;
    }
    assert entries[..i] == entries;
    return Listed(heap, truncated);
  }

  // ---------------------------------------------------------------- the response budget

  function Join(parts: seq<Json>): Json {
    if parts == [] then ""
    else if |parts| == 1 then parts[0]
    else Join(parts[..|parts| - 1]) + "," + parts[|parts| - 1]
  }

  /** The response as JSON; `head` is the text up to the entries. */
  function Response(head: Json, entries: seq<Json>, truncated: bool): Json {
    head + ",\"entries\":[" + Join(entries) + "],\"truncated\":" + (if truncated then "true" else "false") + "}"
  }

  function Encoded(json: Name -> Json, names: seq<Name>): seq<Json> {
    seq(|names|, i requires 0 <= i < |names| => json(names[i]))
  }

  /** What the entries are charged: their text and a comma each. */
  function Cost(json: Name -> Json, names: seq<Name>): nat {
    if names == [] then 0 else Cost(json, names[..|names| - 1]) + |json(names[|names| - 1])| + 1
  }

  function Fixed(head: Json): nat {
    |Response(head, [], true)|
  }

  lemma {:induction false} CostSplits(json: Name -> Json, names: seq<Name>, n: nat)
    requires n <= |names|
    ensures Cost(json, names[..n]) <= Cost(json, names)
    ensures n < |names| ==> Cost(json, names[..n + 1]) == Cost(json, names[..n]) + |json(names[n])| + 1
  {
    if n < |names| {
      assert names[..n + 1][..n] == names[..n];
      var last := |names| - 1;
      CostSplits(json, names[..last], n);
      assert names[..last][..n] == names[..n];
    } else {
      assert names[..n] == names;
    }
  }

  lemma {:induction false} JoinLength(json: Name -> Json, names: seq<Name>)
    ensures |Join(Encoded(json, names))| == if names == [] then 0 else Cost(json, names) - 1
    ensures names != [] ==> Cost(json, names) > 0
  {
    var parts := Encoded(json, names);
    if names != [] {
      var n := |names| - 1;
      JoinLength(json, names[..n]);
      assert parts[..n] == Encoded(json, names[..n]);
      if n == 0 {
        assert names[..0] == [];
      }
    }
  }

  /** The whole response in bytes: the charge, less the comma the first entry has not, plus one to spell false. */
  lemma ResponseLength(head: Json, json: Name -> Json, names: seq<Name>, truncated: bool)
    ensures |Response(head, Encoded(json, names), truncated)|
            == Fixed(head) + Cost(json, names) - (if names == [] then 0 else 1) + (if truncated then 0 else 1)
  {
    JoinLength(json, names);
  }

  /** The longest prefix within the budget, and whether something had to go. */
  method Bound(head: Json, json: Name -> Json, names: seq<Name>) returns (bounded: seq<Name>, cut: bool)
    ensures bounded <= names && (cut <==> bounded != names)
    ensures bounded != [] ==> Fixed(head) + Cost(json, bounded) <= MAX_RESPONSE
    ensures cut ==> Fixed(head) + Cost(json, names[..|bounded| + 1]) > MAX_RESPONSE
  {
    var bytes := Fixed(head);
    bounded, cut := [], false;
    for i := 0 to |names|
      invariant bounded == names[..i] && bytes == Fixed(head) + Cost(json, names[..i])
      invariant i > 0 ==> bytes <= MAX_RESPONSE
    {
      CostSplits(json, names, i);
      var entryBytes := |json(names[i])| + 1;
      if bytes + entryBytes > MAX_RESPONSE {
        cut := true;
        return;
      }
      bytes := bytes + entryBytes;
      assert names[..i + 1] == names[..i] + [names[i]];
      bounded := bounded + [names[i]];
    }
  }

  /** The whole operation, once the folder is read. */
  ghost predicate Answers(entries: seq<Found>, head: Json, json: Name -> Json, r: Result) {
    var names := Names(Scanned(entries));
    var kept := Take(Sort(names), MAX_ENTRIES);
    if Failed in Scanned(entries) then r == Failure
    else
      && r.Listed? && r.names <= kept
      && (r.names != [] ==> Fixed(head) + Cost(json, r.names) <= MAX_RESPONSE)
      && (|r.names| < |kept| ==> Fixed(head) + Cost(json, kept[..|r.names| + 1]) > MAX_RESPONSE)
      && (r.truncated <==> |entries| > MAX_SCANNED || |names| > |r.names|)
  }

  method List(entries: seq<Found>, head: Json, json: Name -> Json) returns (r: Result)
    ensures Answers(entries, head, json, r)
  {
    r := Select(entries);
    if r.Listed? {
      var truncated := r.truncated;
      SortSorts(Names(Scanned(entries)));
      var bounded, cut := Bound(head, json, r.names);
      r := Listed(bounded, truncated || cut);
    }
  }

  /** `rest` is what is missing from a listing of `names`, and none of it sorts before a listed name. */
  ghost predicate LeftOut(names: seq<Name>, listed: seq<Name>, rest: seq<Name>) {
    && multiset(listed) + multiset(rest) == multiset(names)
    && forall i, j :: 0 <= i < |listed| && 0 <= j < |rest| ==> !Less(rest[j], listed[i])
  }

  lemma CutOfSorted(names: seq<Name>, n: nat)
    requires n <= |names|
    ensures |Sort(names)| == |names|
    ensures Ascending(Sort(names)[..n]) && LeftOut(names, Sort(names)[..n], Sort(names)[n..])
  {
    SortSorts(names);
    var sorted := Sort(names);
    assert sorted == sorted[..n] + sorted[n..];
  }

  lemma NoneBefore(names: seq<Name>, listed: seq<Name>, rest: seq<Name>)
    requires Ascending(listed) && LeftOut(names, listed, rest)
    ensures forall i, j :: 0 <= i < j < |listed| ==> !Before(listed[j], listed[i])
    ensures forall x, y :: x in rest && y in listed ==> !Before(x, y)
  {
    forall i, j | 0 <= i < j < |listed| ensures !Before(listed[j], listed[i]) {
      LessIsBytewise(listed[j], listed[i]);
    }
    forall x, y | x in rest && y in listed ensures !Before(x, y) {
      LessIsBytewise(x, y);
    }
  }

  /**
    The list is ascending, no directory left out sorts before one listed, and with `truncated` false
    nothing at all is left out.
   */
  lemma ListedAreTheFirst(entries: seq<Found>, head: Json, json: Name -> Json, r: Result)
    requires Answers(entries, head, json, r) && r.Listed?
    ensures |r.names| <= MAX_ENTRIES && forall i, j :: 0 <= i < j < |r.names| ==> !Before(r.names[j], r.names[i])
    ensures exists rest :: LeftOut(Names(Scanned(entries)), r.names, rest)
                           && forall x, y :: x in rest && y in r.names ==> !Before(x, y)
    ensures !r.truncated ==> multiset(r.names) == multiset(Names(entries))
  {
    var names, n := Names(Scanned(entries)), |r.names|;
    SortSorts(names);
    CutOfSorted(names, n);
    assert r.names == Sort(names)[..n];
    var rest := Sort(names)[n..];
    assert LeftOut(names, r.names, rest);
    NoneBefore(names, r.names, rest);
    if !r.truncated {
      assert Scanned(entries) == entries;
      assert |multiset(r.names) + multiset(rest)| == |r.names| + |rest|;
      assert rest == [];
    }
  }

  /**
    The response stays within the limit exactly when the envelope alone is below it, or meets it
    with something left out.
   */
  lemma ResponseWithinLimit(entries: seq<Found>, head: Json, json: Name -> Json, r: Result)
    requires Answers(entries, head, json, r) && r.Listed?
    ensures |Response(head, Encoded(json, r.names), r.truncated)| <= MAX_RESPONSE
            <==> Fixed(head) < MAX_RESPONSE
                 || (Fixed(head) == MAX_RESPONSE
                     && (|entries| > MAX_SCANNED || Names(Scanned(entries)) != []))
  {
    ResponseLength(head, json, r.names, r.truncated);
    JoinLength(json, r.names);
    SortSorts(Names(Scanned(entries)));
  }

  // ---------------------------------------------------------------- real paths

  /** Linux paths have at most 4096 bytes, of which a lossy decoding makes at most three each. */
  const MAX_PATH := 3 * 4096

  /** One byte inside a JSON string (section 7 of RFC 8259), as serde_json spells it. */
  function Escaped(b: Byte): (r: Json)
    ensures 1 <= |r| <= 6
  {
    var hex := "0123456789abcdef";
    if b == 0x22 then "\\\""
    else if b == 0x5C then "\\\\"
    else if b == 8 then "\\b"
    else if b == 9 then "\\t"
    else if b == 10 then "\\n"
    else if b == 12 then "\\f"
    else if b == 13 then "\\r"
    else if b < 0x20 then "\\u00" + [hex[b / 16], hex[b % 16]]
    else [b as char]
  }

  /** Nothing is left raw that a JSON string may not hold: control characters, quotes and backslashes. */
  lemma EscapedIsJson(b: Byte)
    ensures forall i :: 0 <= i < |Escaped(b)| ==> Escaped(b)[i] >= ' '
    ensures |Escaped(b)| == 1 ==> Escaped(b)[0] == b as char && b >= 0x20 && b != 0x22 && b != 0x5C
    ensures |Escaped(b)| > 1 ==> Escaped(b)[0] == '\\'
  {
  }

  function Spelled(text: Name): Json {
    if text == [] then "" else Escaped(text[0]) + Spelled(text[1..])
  }

  /** The text up to the entries. */
  function Head(path: Name, parent: Option<Name>): Json {
    "{\"path\":\"" + Spelled(path) + "\"" +
    if parent.Some? then ",\"parent\":\"" + Spelled(parent.value) + "\"" else ""
  }

  lemma {:induction false} SpelledLength(text: Name)
    ensures |text| <= |Spelled(text)| <= 6 * |text|
  {
    if text != [] {
      SpelledLength(text[1..]);
    }
  }

  /** For every path there can be, then, the response is within the limit. */
  lemma ListingFits(entries: seq<Found>, path: Name, parent: Option<Name>, json: Name -> Json, r: Result)
    requires |path| <= MAX_PATH && (parent.Some? ==> |parent.value| <= |path|)
    requires Answers(entries, Head(path, parent), json, r) && r.Listed?
    ensures |Response(Head(path, parent), Encoded(json, r.names), r.truncated)| <= MAX_RESPONSE
  {
    SpelledLength(path);
    if parent.Some? {
      SpelledLength(parent.value);
    }
    ResponseWithinLimit(entries, Head(path, parent), json, r);
  }
}
