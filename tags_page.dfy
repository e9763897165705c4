/** The tag overview of the tags page (src/pages/TagsPage.tsx): how often each tag
    occurs, the tags ordered by that count, and the tasks that carry each tag. */
module TagsPage {
  import opened Seqs
  import opened Sorting
  import opened TaskTypes

  /** Every tag of every task, task by task and in each task's order, duplicates kept. */
  function AllTags(tasks: seq<Task>): seq<string> {
    if tasks == [] then [] else AllTags(tasks[..|tasks| - 1]) + tasks[|tasks| - 1].tags
  }

  /** The distinct elements of `s` in the order they are first met: the key order of a
      JavaScript `Map` filled by `set` calls with the elements of `s` in turn. */
  function Distinct(s: seq<string>): (r: seq<string>)
    ensures forall x :: x in r <==> x in s
    ensures NoDuplicates(r)
  {
    if s == [] then []
    else
      var d := Distinct(s[..|s| - 1]);
      assert forall x :: x in s <==> x in s[..|s| - 1] || x == s[|s| - 1];
      if s[|s| - 1] in d then d else d + [s[|s| - 1]]
  }

  /** The counts after `tags.set(x, (tags.get(x) || 0) + 1)` for each `x` of `s` in turn. */
  ghost function Occurrences(s: seq<string>): map<string, nat> {
    if s == [] then map[]
    else
      var m := Occurrences(s[..|s| - 1]);
      var x := s[|s| - 1];
      m[x := (if x in m then m[x] else 0) + 1]
  }

  /** Each tag of `tasks` mapped to its number of occurrences. */
  ghost function CountMap(tasks: seq<Task>): map<string, nat> {
    var all := multiset(AllTags(tasks));
    map t | t in all :: all[t]
  }

  // ------------------------------------------------------------- counting loop

  /** The nested `forEach` loops that fill `tags: Map<string, number>`; the map is
      returned as its keys in insertion order and its key-to-count map. */
  method CountTags(tasks: seq<Task>) returns (keys: seq<string>, counts: map<string, nat>)
    ensures keys == Distinct(AllTags(tasks))
    ensures counts == CountMap(tasks)
  {
    keys, counts := [], map[];
    var i := 0;
    while i < |tasks|
      invariant 0 <= i <= |tasks|
      invariant keys == Distinct(AllTags(tasks[..i])) && counts == Occurrences(AllTags(tasks[..i]))
    {
      AllTagsSnoc(tasks, i);
      keys, counts := CountTaskTags(keys, counts, AllTags(tasks[..i]), tasks[i].tags);
      i := i + 1;
    }
    assert tasks[..i] == tasks;
    OccurrencesIsCountMap(tasks);
  }

  /** The inner `forEach`: one task's tags, each counted in turn. */
  method CountTaskTags(keys0: seq<string>, counts0: map<string, nat>, ghost before: seq<string>,
                       tags: seq<string>) returns (keys: seq<string>, counts: map<string, nat>)
    requires keys0 == Distinct(before) && counts0 == Occurrences(before)
    ensures keys == Distinct(before + tags) && counts == Occurrences(before + tags)
  {
    keys, counts := keys0, counts0;
    ghost var seen := before;
    var j := 0;
    while j < |tags|
      invariant 0 <= j <= |tags|
      invariant seen == before + tags[..j]
      invariant keys == Distinct(seen) && counts == Occurrences(seen)
    {
      var tag := tags[j];
      var current := if tag in counts then counts[tag] else 0;
      SliceSnoc(before, tags, j);
      CountStep(keys, counts, seen, tag, current);
      if tag !in counts {
        keys := keys + [tag];
      }
      counts := counts[tag := current + 1];
      seen := seen + [tag];
      j := j + 1;
    }
    assert tags[..j] == tags;
  }

  lemma SliceSnoc(before: seq<string>, tags: seq<string>, j: int)
    requires 0 <= j < |tags|
    ensures before + tags[..j + 1] == (before + tags[..j]) + [tags[j]]
  {
    assert tags[..j + 1] == tags[..j] + [tags[j]];
  }

  lemma AllTagsSnoc(tasks: seq<Task>, i: int)
    requires 0 <= i < |tasks|
    ensures AllTags(tasks[..i + 1]) == AllTags(tasks[..i]) + tasks[i].tags
  {
    assert tasks[..i + 1][..i] == tasks[..i];
  }

  lemma DistinctSnoc(s: seq<string>, x: string)
    ensures Distinct(s + [x]) == if x in Distinct(s) then Distinct(s) else Distinct(s) + [x]
  {
    assert (s + [x])[..|s + [x]| - 1] == s;
  }

  /** The running counts hold each element of `s` with its number of occurrences. */
  lemma {:induction false} OccurrencesCount(s: seq<string>, t: string)
    ensures t in Occurrences(s) <==> t in multiset(s)
    ensures t in Occurrences(s) ==> Occurrences(s)[t] == multiset(s)[t]
  {
    if s != [] {
      var n := |s| - 1;
      OccurrencesCount(s[..n], t);
      assert s == s[..n] + [s[n]];
      assert multiset(s) == multiset(s[..n]) + multiset{s[n]};
    }
  }

  lemma OccurrencesIsCountMap(tasks: seq<Task>)
    ensures Occurrences(AllTags(tasks)) == CountMap(tasks)
  {
    forall t {
      OccurrencesCount(AllTags(tasks), t);
    }
  }

  /** One `tags.set` call keeps the keys and the counts in step with the tags seen. */
  lemma CountStep(keys: seq<string>, counts: map<string, nat>, seen: seq<string>, tag: string,
                  current: nat)
    requires keys == Distinct(seen) && counts == Occurrences(seen)
    requires current == if tag in counts then counts[tag] else 0
    ensures (if tag in counts then keys else keys + [tag]) == Distinct(seen + [tag])
    ensures counts[tag := current + 1] == Occurrences(seen + [tag])
  {
    DistinctSnoc(seen, tag);
    OccurrencesCount(seen, tag);
    assert (seen + [tag])[..|seen|] == seen;
  }

  // ------------------------------------------------------------ post-processing

  /** One `[tag, count]` entry of the map. */
  datatype TagCount = TagCount(tag: string, count: nat)

  /** One group of the page: a tag, its count, and the tasks that carry it. */
  datatype TagGroup = TagGroup(name: string, count: nat, tasks: seq<Task>)

  /** The comparator `(a, b) => b[1] - a[1]`: larger counts first. */
  function ByCountDesc(a: TagCount, b: TagCount): (r: int)
    ensures r < 0 <==> a.count > b.count
    ensures r == 0 <==> a.count == b.count
  {
    b.count - a.count
  }

  function HasTag(tag: string): Task -> bool {
    (t: Task) => tag in t.tags
  }

  /** `Array.from(tags.entries())`. */
  function Entries(keys: seq<string>, counts: map<string, nat>): (r: seq<TagCount>)
    requires forall k :: k in keys ==> k in counts
    ensures |r| == |keys| && forall i :: 0 <= i < |r| ==> r[i] == TagCount(keys[i], counts[keys[i]])
  {
    seq(|keys|, i requires 0 <= i < |keys| => TagCount(keys[i], counts[keys[i]]))
  }

  /** Lines 22-28: sort the entries by count, largest first, and attach to each tag the
      tasks whose tags include it. */
  function GroupsFrom(keys: seq<string>, counts: map<string, nat>, tasks: seq<Task>)
    : (r: seq<TagGroup>)
    requires forall k :: k in keys ==> k in counts
    ensures |r| == |keys|
    ensures multiset(Summary(r)) == multiset(Entries(keys, counts))
    ensures forall i, j :: 0 <= i < j < |r| ==> r[i].count >= r[j].count
    ensures forall c: nat :: Filter(Summary(r), CountIs(c)) == Filter(Entries(keys, counts), CountIs(c))
    ensures forall i :: 0 <= i < |r| ==> r[i].tasks == Filter(tasks, HasTag(r[i].name))
  {
    var r := Attach(Sort(Entries(keys, counts), ByCountDesc), tasks);
    SortedGroups(Entries(keys, counts), r);
    r
  }

  /** Groups listing the entries sorted by count list them largest count first, keeping
      entries of equal count in order. */
  lemma SortedGroups(entries: seq<TagCount>, r: seq<TagGroup>)
    requires Summary(r) == Sort(entries, ByCountDesc)
    ensures |r| == |entries|
    ensures multiset(Summary(r)) == multiset(entries)
    ensures forall i, j :: 0 <= i < j < |r| ==> r[i].count >= r[j].count
    ensures forall c: nat :: Filter(Summary(r), CountIs(c)) == Filter(entries, CountIs(c))
  {
    SortedByCount(entries);
    var sorted := Summary(r);
    forall i, j | 0 <= i < j < |r| ensures r[i].count >= r[j].count {
      assert sorted[i].count >= sorted[j].count;
    }
  }

  /** Each entry with the tasks whose tags include its tag. */
  function Attach(entries: seq<TagCount>, tasks: seq<Task>): (r: seq<TagGroup>)
    ensures Summary(r) == entries
    ensures forall i :: 0 <= i < |r| ==> r[i].tasks == Filter(tasks, HasTag(r[i].name))
  {
    var r := seq(|entries|, i requires 0 <= i < |entries| =>
      TagGroup(entries[i].tag, entries[i].count, Filter(tasks, HasTag(entries[i].tag))));
    assert Summary(r) == entries;
    r
  }

  /** What the page computes from the task list. */
  ghost function TagGroups(tasks: seq<Task>): seq<TagGroup> {
    GroupsFrom(Distinct(AllTags(tasks)), CountMap(tasks), tasks)
  }

  /** The `useMemo` body: count, then post-process. */
  method ComputeTagGroups(tasks: seq<Task>) returns (groups: seq<TagGroup>)
    ensures groups == TagGroups(tasks)
  {
    var keys, counts := CountTags(tasks);
    groups := GroupsFrom(keys, counts, tasks);
  }

  // ------------------------------------------------------------ properties

  lemma ByCountDescIsComparator()
    ensures IsComparator(ByCountDesc)
  {
    forall a, b, c | NotAfter(ByCountDesc, a, b) && NotAfter(ByCountDesc, b, c)
      ensures NotAfter(ByCountDesc, a, c)
    {
    }
  }

  /** The entries as the groups list them: tag and count. */
  function Summary(groups: seq<TagGroup>): (r: seq<TagCount>)
    ensures |r| == |groups|
    ensures forall i :: 0 <= i < |r| ==> r[i] == TagCount(groups[i].name, groups[i].count)
  {
    seq(|groups|, i requires 0 <= i < |groups| => TagCount(groups[i].name, groups[i].count))
  }

  /** The groups are the sorted entries with their tasks attached. */
  lemma GroupsFromSorted(keys: seq<string>, counts: map<string, nat>, tasks: seq<Task>)
    requires forall k :: k in keys ==> k in counts
    ensures var r := GroupsFrom(keys, counts, tasks);
      && Summary(r) == Sort(Entries(keys, counts), ByCountDesc)
      && forall i :: 0 <= i < |r| ==> r[i].tasks == Filter(tasks, HasTag(r[i].name))
  {
  }

  lemma {:induction false} NoDuplicatesCount<T>(s: seq<T>, x: T)
    requires NoDuplicates(s)
    ensures multiset(s)[x] == if x in s then 1 else 0
  {
    if s != [] {
      assert s == [s[0]] + s[1..];
      assert NoDuplicates(s[1..]);
      NoDuplicatesCount(s[1..], x);
    }
  }

  /** Each tag that occurs in some task's tags yields exactly one group, no other group
      exists, and a group's count is the tag's number of occurrences over all tasks. */
  lemma OneGroupPerTag(tasks: seq<Task>)
    ensures var r := TagGroups(tasks);
      && (forall tag :: tag in AllTags(tasks) <==> exists i :: 0 <= i < |r| && r[i].name == tag)
      && (forall i, j :: 0 <= i < j < |r| ==> r[i].name != r[j].name)
      && (forall i :: 0 <= i < |r| ==> r[i].count == multiset(AllTags(tasks))[r[i].name])
      && (forall i :: 0 <= i < |r| ==> r[i].tasks == Filter(tasks, HasTag(r[i].name)))
  {
    var keys, counts := Distinct(AllTags(tasks)), CountMap(tasks);
    var entries := Entries(keys, counts);
    var r := TagGroups(tasks);
    GroupsFromSorted(keys, counts, tasks);
    GroupsAreCountedTags(tasks, keys, counts, entries, r);
    EveryTagHasGroup(tasks, keys, counts, entries, r);
    GroupNamesDistinct(keys, counts, entries, r);
  }

  lemma GroupsAreCountedTags(tasks: seq<Task>, keys: seq<string>, counts: map<string, nat>,
                             entries: seq<TagCount>, r: seq<TagGroup>)
    requires keys == Distinct(AllTags(tasks)) && counts == CountMap(tasks)
    requires entries == Entries(keys, counts) && multiset(Summary(r)) == multiset(entries)
    ensures forall i :: 0 <= i < |r| ==>
      r[i].name in AllTags(tasks) && r[i].count == multiset(AllTags(tasks))[r[i].name]
  {
    var sorted := Summary(r);
    forall i | 0 <= i < |r|
      ensures r[i].name in AllTags(tasks)
      ensures r[i].count == multiset(AllTags(tasks))[r[i].name]
    {
      assert sorted[i] in multiset(entries);
      var k :| 0 <= k < |entries| && entries[k] == sorted[i];
    }
  }

  lemma EveryTagHasGroup(tasks: seq<Task>, keys: seq<string>, counts: map<string, nat>,
                         entries: seq<TagCount>, r: seq<TagGroup>)
    requires keys == Distinct(AllTags(tasks)) && counts == CountMap(tasks)
    requires entries == Entries(keys, counts) && multiset(Summary(r)) == multiset(entries)
    ensures forall tag :: tag in AllTags(tasks) ==> exists i :: 0 <= i < |r| && r[i].name == tag
  {
    var sorted := Summary(r);
    forall tag | tag in AllTags(tasks) ensures exists i :: 0 <= i < |r| && r[i].name == tag {
      var k :| 0 <= k < |keys| && keys[k] == tag;
      assert entries[k] in multiset(sorted);
      var i :| 0 <= i < |sorted| && sorted[i] == entries[k];
      assert r[i].name == tag;
    }
  }

  lemma GroupNamesDistinct(keys: seq<string>, counts: map<string, nat>,
                           entries: seq<TagCount>, r: seq<TagGroup>)
    requires NoDuplicates(keys) && forall k :: k in keys ==> k in counts
    requires entries == Entries(keys, counts) && multiset(Summary(r)) == multiset(entries)
    ensures forall i, j :: 0 <= i < j < |r| ==> r[i].name != r[j].name
  {
    var sorted := Summary(r);
    assert NoDuplicates(entries) by {
      forall a, b | 0 <= a < b < |entries| ensures entries[a] != entries[b] {
        assert entries[a].tag == keys[a] && entries[b].tag == keys[b];
      }
    }
    forall i, j | 0 <= i < j < |r| ensures r[i].name != r[j].name {
      if r[i].name == r[j].name {
        SameTagSameEntry(entries, keys, counts, sorted[i], sorted[j]);
        NoDuplicatesCount(entries, sorted[i]);
        TwoEqualElements(sorted, i, j);
        assert false;
      }
    }
  }

  lemma SameTagSameEntry(entries: seq<TagCount>, keys: seq<string>, counts: map<string, nat>,
                         a: TagCount, b: TagCount)
    requires forall k :: k in keys ==> k in counts
    requires entries == Entries(keys, counts)
    requires a in multiset(entries) && b in multiset(entries) && a.tag == b.tag
    ensures a == b
  {
    var i :| 0 <= i < |entries| && entries[i] == a;
    var j :| 0 <= j < |entries| && entries[j] == b;
  }

  lemma TwoEqualElements<T>(s: seq<T>, i: int, j: int)
    requires 0 <= i < j < |s| && s[i] == s[j]
    ensures multiset(s)[s[i]] >= 2
  {
    assert s == s[..j] + [s[j]] + s[j + 1..];
    assert s[i] in s[..j];
    assert multiset(s) == multiset(s[..j]) + multiset{s[j]} + multiset(s[j + 1..]);
  }

  /** The groups come in non-increasing order of count, and groups with equal counts keep
      the order in which their tags were first met. */
  lemma GroupsOrderedByCount(tasks: seq<Task>)
    ensures var r := TagGroups(tasks);
      && (forall i, j :: 0 <= i < j < |r| ==> r[i].count >= r[j].count)
      && (forall c: nat :: Filter(Summary(r), CountIs(c))
                        == Filter(Entries(Distinct(AllTags(tasks)), CountMap(tasks)), CountIs(c)))
  {
    var keys, counts := Distinct(AllTags(tasks)), CountMap(tasks);
    var r := TagGroups(tasks);
    GroupsFromSorted(keys, counts, tasks);
    var entries := Entries(keys, counts);
    SortedByCount(entries);
    var sorted := Summary(r);
    forall i, j | 0 <= i < j < |r| ensures r[i].count >= r[j].count {
      assert r[i].count == sorted[i].count && r[j].count == sorted[j].count;
    }
  }

  /** Sorting entries by `ByCountDesc` puts counts in non-increasing order and keeps entries
      with equal counts in their input order. */
  lemma SortedByCount(entries: seq<TagCount>)
    ensures var sorted := Sort(entries, ByCountDesc);
      && (forall i, j :: 0 <= i < j < |sorted| ==> sorted[i].count >= sorted[j].count)
      && (forall c: nat :: Filter(sorted, CountIs(c)) == Filter(entries, CountIs(c)))
  {
    ByCountDescIsComparator();
    var sorted := Sort(entries, ByCountDesc);
    forall i, j | 0 <= i < j < |sorted| ensures sorted[i].count >= sorted[j].count {
      assert NotAfter(ByCountDesc, sorted[i], sorted[j]);
    }
    forall c: nat ensures Filter(sorted, CountIs(c)) == Filter(entries, CountIs(c)) {
      SameCountKeepsOrder(entries, sorted, c);
    }
  }

  lemma SameCountKeepsOrder(entries: seq<TagCount>, sorted: seq<TagCount>, c: nat)
    requires IsComparator(ByCountDesc) && sorted == Sort(entries, ByCountDesc)
    ensures Filter(sorted, CountIs(c)) == Filter(entries, CountIs(c))
  {
    var x := TagCount("", c);
    assert EqualKeys(sorted, x, ByCountDesc) == EqualKeys(entries, x, ByCountDesc);
    EqualKeysIsFilter(sorted, x, ByCountDesc, CountIs(c));
    EqualKeysIsFilter(entries, x, ByCountDesc, CountIs(c));
  }

  function CountIs(c: nat): TagCount -> bool {
    (e: TagCount) => e.count == c
  }

  /** The page shows "No tags found" exactly when no task has a tag. */
  lemma {:induction false} NoGroupsIffNoTags(tasks: seq<Task>)
    ensures TagGroups(tasks) == [] <==> forall i :: 0 <= i < |tasks| ==> tasks[i].tags == []
  {
    OneGroupPerTag(tasks);
    AllTagsEmpty(tasks);
  }

  lemma {:induction false} AllTagsEmpty(tasks: seq<Task>)
    ensures AllTags(tasks) == [] <==> forall i :: 0 <= i < |tasks| ==> tasks[i].tags == []
  {
    if tasks != [] {
      var n := |tasks| - 1;
      AllTagsEmpty(tasks[..n]);
      assert forall i :: 0 <= i < n ==> tasks[..n][i] == tasks[i];
    }
  }

  /** When no task lists a tag twice, a group's count is the number of its tasks. */
  lemma {:induction false} CountIsTaskCount(tasks: seq<Task>, tag: string)
    requires forall i :: 0 <= i < |tasks| ==> NoDuplicates(tasks[i].tags)
    ensures multiset(AllTags(tasks))[tag] == |Filter(tasks, HasTag(tag))|
  {
    if tasks != [] {
      var n := |tasks| - 1;
      var last := tasks[n];
      CountIsTaskCount(tasks[..n], tag);
      assert tasks == tasks[..n] + [last];
      FilterAppend(tasks[..n], [last], HasTag(tag));
      assert [last][1..] == [];
      NoDuplicatesCount(last.tags, tag);
    }
  }

  function SumCounts(groups: seq<TagGroup>): nat {
    if groups == [] then 0 else groups[0].count + SumCounts(groups[1..])
  }

  function SumEntries(entries: seq<TagCount>): nat {
    if entries == [] then 0 else entries[0].count + SumEntries(entries[1..])
  }

  /** The number of occurrences in `m` of the elements of `d`, added up. */
  function SumOver(d: seq<string>, m: multiset<string>): nat {
    if d == [] then 0 else m[d[0]] + SumOver(d[1..], m)
  }

  /** The counts add up to the total number of tags over all tasks. */
  lemma SumOfCounts(tasks: seq<Task>)
    ensures SumCounts(TagGroups(tasks)) == |AllTags(tasks)|
  {
    var keys, counts := Distinct(AllTags(tasks)), CountMap(tasks);
    var entries := Entries(keys, counts);
    var r := TagGroups(tasks);
    GroupsFromSorted(keys, counts, tasks);
    SumCountsIsSumEntries(r);
    SumEntriesPermutation(Summary(r), entries);
    SumEntriesIsSumOver(keys, counts, multiset(AllTags(tasks)));
    SumOverDistinct(AllTags(tasks));
  }

  lemma {:induction false} SumCountsIsSumEntries(groups: seq<TagGroup>)
    ensures SumCounts(groups) == SumEntries(Summary(groups))
  {
    if groups != [] {
      SumCountsIsSumEntries(groups[1..]);
      assert Summary(groups)[1..] == Summary(groups[1..]);
    }
  }

  lemma {:induction false} SumEntriesAppend(a: seq<TagCount>, b: seq<TagCount>)
    ensures SumEntries(a + b) == SumEntries(a) + SumEntries(b)
  {
    if a != [] {
      assert (a + b)[1..] == a[1..] + b;
      SumEntriesAppend(a[1..], b);
    } else {
      assert a + b == b;
    }
  }

  lemma {:induction false} SumEntriesPermutation(a: seq<TagCount>, b: seq<TagCount>)
    requires multiset(a) == multiset(b)
    ensures SumEntries(a) == SumEntries(b)
    decreases |a|
  {
    if a == [] {
      assert |b| == |multiset(b)| == 0;
    } else {
      var x := a[0];
      assert a == [x] + a[1..];
      assert multiset(a[1..]) == multiset(a) - multiset{x};
      assert x in multiset(b);
      var k :| 0 <= k < |b| && b[k] == x;
      RemoveAt(b, k);
      SumEntriesPermutation(a[1..], b[..k] + b[k + 1..]);
    }
  }

  /** Taking out the element at `k` takes out its count and one occurrence of it. */
  lemma RemoveAt(b: seq<TagCount>, k: int)
    requires 0 <= k < |b|
    ensures SumEntries(b) == b[k].count + SumEntries(b[..k] + b[k + 1..])
    ensures multiset(b[..k] + b[k + 1..]) == multiset(b) - multiset{b[k]}
  {
    RemoveAtSum(b, k);
    RemoveAtMultiset(b, k);
  }

  lemma RemoveAtSum(b: seq<TagCount>, k: int)
    requires 0 <= k < |b|
    ensures SumEntries(b) == b[k].count + SumEntries(b[..k] + b[k + 1..])
  {
    var front, back := b[..k], b[k + 1..];
    var tail := [b[k]] + back;
    calc {
      SumEntries(b);
      { assert b == front + tail; }
      SumEntries(front + tail);
      { SumEntriesAppend(front, tail); }
      SumEntries(front) + SumEntries(tail);
      { assert tail[1..] == back; }
      SumEntries(front) + b[k].count + SumEntries(back);
      { SumEntriesAppend(front, back); }
      b[k].count + SumEntries(front + back);
    }
  }

  lemma RemoveAtMultiset(b: seq<TagCount>, k: int)
    requires 0 <= k < |b|
    ensures multiset(b[..k] + b[k + 1..]) == multiset(b) - multiset{b[k]}
  {
    assert b == b[..k] + [b[k]] + b[k + 1..];
  }

  lemma {:induction false} SumEntriesIsSumOver(keys: seq<string>, counts: map<string, nat>, m: multiset<string>)
    requires forall k :: k in keys ==> k in counts && counts[k] == m[k]
    ensures SumEntries(Entries(keys, counts)) == SumOver(keys, m)
  {
    if keys != [] {
      assert Entries(keys, counts)[1..] == Entries(keys[1..], counts);
      SumEntriesIsSumOver(keys[1..], counts, m);
    }
  }

  lemma {:induction false} SumOverAppend(d: seq<string>, x: string, m: multiset<string>)
    ensures SumOver(d + [x], m) == SumOver(d, m) + m[x]
  {
    if d != [] {
      assert (d + [x])[1..] == d[1..] + [x];
      SumOverAppend(d[1..], x, m);
    }
  }

  lemma {:induction false} SumOverAdd(d: seq<string>, m: multiset<string>, x: string)
    requires NoDuplicates(d)
    ensures SumOver(d, m + multiset{x}) == SumOver(d, m) + if x in d then 1 else 0
  {
    if d != [] {
      assert NoDuplicates(d[1..]);
      SumOverAdd(d[1..], m, x);
      assert x in d <==> x == d[0] || x in d[1..];
      assert d[0] !in d[1..];
    }
  }

  /** Adding up the multiplicities of the distinct elements of `s` gives its length. */
  lemma {:induction false} SumOverDistinct(s: seq<string>)
    ensures SumOver(Distinct(s), multiset(s)) == |s|
  {
    if s != [] {
      var n := |s| - 1;
      var x := s[n];
      var d := Distinct(s[..n]);
      SumOverDistinct(s[..n]);
      assert s == s[..n] + [x];
      assert multiset(s) == multiset(s[..n]) + multiset{x};
      SumOverAdd(d, multiset(s[..n]), x);
      if x !in d {
        SumOverAppend(d, x, multiset(s));
      }
    }
  }
}
