/** Crawl checkpoints of src/api/server.py: when one is written, how it spells where each
    URL was found, and what a resumed crawl makes of it. */
module Checkpoint {
  import opened Common

  const INTERVAL_S := 10.0
  const EVERY_PAGES: nat := 100

  // ------------------------------------------------------------ when one is written

  /** One call with the monotonic clock and the number of URLs in the graph. */
  datatype Call = Call(now: real, count: nat)

  datatype Throttle = Throttle(lastWrite: real, lastCount: nat)

  const FRESH := Throttle(0.0, 0)

  predicate Writes(t: Throttle, c: Call) {
    c.count > 0 && (c.now - t.lastWrite >= INTERVAL_S || c.count - t.lastCount >= EVERY_PAGES)
  }

  function Called(t: Throttle, c: Call): Throttle {
    if Writes(t, c) then Throttle(c.now, c.count) else t
  }

  class CrawlCheckpointer {
    var lastWrite: real
    var lastCount: nat

    constructor ()
      ensures View() == FRESH
    {
      lastWrite, lastCount := 0.0, 0;
    }

    function View(): Throttle reads this {
      Throttle(lastWrite, lastCount)
    }

    /** `__call__`. After it, what a crash would lose is bounded on both sides. */
    method Save(c: Call) returns (wrote: bool)
      modifies this
      ensures View() == Called(old(View()), c)
      ensures wrote <==> Writes(old(View()), c)
      ensures wrote <==>
        c.count > 0 && (c.now - old(lastWrite) >= 10.0 || c.count - old(lastCount) >= 100)
      ensures wrote ==> lastWrite == c.now && lastCount == c.count
      ensures !wrote ==> lastWrite == old(lastWrite) && lastCount == old(lastCount)
      ensures c.count > 0 ==> c.now - lastWrite < 10.0 && c.count - lastCount < 100
    {
      var due := c.now - lastWrite >= INTERVAL_S || c.count - lastCount >= EVERY_PAGES;
      if !due || c.count == 0 {
        return false;
      }
      lastWrite := c.now;
      lastCount := c.count;
      return true;
    }
  }

  function RunFrom(t: Throttle, calls: seq<Call>): Throttle {
    if calls == [] then t
    else Called(RunFrom(t, calls[..|calls| - 1]), calls[|calls| - 1])
  }

  /** How many of the calls wrote. */
  function Written(t: Throttle, calls: seq<Call>): nat {
    if calls == [] then 0
    else
      var front := calls[..|calls| - 1];
      Written(t, front) + if Writes(RunFrom(t, front), calls[|calls| - 1]) then 1 else 0
  }

  /** The last call of a history that had to write: on a graph that is not empty, 10 s or
      100 URLs after the one before. No checkpointer is involved. */
  function LastWritten(calls: seq<Call>): Option<Call> {
    if calls == [] then None
    else
      var before, c := LastWritten(calls[..|calls| - 1]), calls[|calls| - 1];
      if IsDue(before, c) then Some(c) else before
  }

  predicate IsDue(last: Option<Call>, c: Call) {
    c.count > 0
    && match last
       case None => c.now >= 10.0 || c.count >= 100
       case Some(w) => c.now - w.now >= 10.0 || c.count - w.count >= 100
  }

  /** A call writes exactly when it is due, counted from the last write of the history; so
      an empty graph is never written. */
  lemma {:induction false} WritesExactly(calls: seq<Call>, c: Call)
    ensures Writes(RunFrom(FRESH, calls), c) <==> IsDue(LastWritten(calls), c)
  {
    RemembersLastWritten(calls);
  }

  /** After every call on a graph that is not empty, either something was written and
      under 10 s and under 100 URLs have accrued since, or nothing ever was and both are
      still under their bounds counted from zero. */
  lemma {:induction false} LossIsBounded(calls: seq<Call>)
    requires calls != [] && calls[|calls| - 1].count > 0
    ensures var c := calls[|calls| - 1];
      match LastWritten(calls)
      case Some(w) => w in calls && c.now - w.now < 10.0 && c.count - w.count < 100
      case None => c.now < 10.0 && c.count < 100
  {
    RemembersLastWritten(calls);
  }

  lemma {:induction false} RemembersLastWritten(calls: seq<Call>)
    ensures RunFrom(FRESH, calls) ==
      match LastWritten(calls)
      case Some(w) => Throttle(w.now, w.count)
      case None => Throttle(0.0, 0)
    ensures LastWritten(calls).Some? ==> LastWritten(calls).value in calls
  {
    if calls != [] {
      RemembersLastWritten(calls[..|calls| - 1]);
    }
  }

  predicate Growing(calls: seq<Call>) {
    forall i, k :: 0 <= i < k < |calls| ==> calls[i].now <= calls[k].now && calls[i].count <= calls[k].count
  }

  lemma {:induction false} WritesPayTheirWay(t: Throttle, calls: seq<Call>)
    requires calls != [] && Growing(calls)
    ensures var first, last, end := calls[0], calls[|calls| - 1], RunFrom(t, calls);
      Written(t, calls) > 0 ==>
        && first.now <= end.lastWrite <= last.now && first.count <= end.lastCount <= last.count
        && Written(t, calls) as real
           <= 1.0 + (end.lastWrite - first.now) / 10.0 + (end.lastCount - first.count) as real / 100.0
  {
    var front := calls[..|calls| - 1];
    var first, last := calls[0], calls[|calls| - 1];
    if front == [] {
      assert Written(t, front) == 0;
    } else {
      WritesPayTheirWay(t, front);
      assert front[0] == first;
      assert front[|front| - 1].now <= last.now && front[|front| - 1].count <= last.count;
    }
  }

  /** While the graph grows, the writes over any stretch of a run with `T` seconds and
      `N` new URLs number at most `1 + T/10 + N/100`. */
  lemma WritesAreBounded(t: Throttle, calls: seq<Call>)
    requires calls != [] && Growing(calls)
    ensures var first, last := calls[0], calls[|calls| - 1];
      Written(t, calls) as real
      <= 1.0 + (last.now - first.now) / 10.0 + (last.count - first.count) as real / 100.0
  {
    WritesPayTheirWay(t, calls);
    assert calls[0].now <= calls[|calls| - 1].now && calls[0].count <= calls[|calls| - 1].count;
  }

  // ------------------------------------------------------------ source flags

  datatype DiscoverySource = DiscoverySource(sitemap: bool, domLink: bool, cmsApi: bool)

  /** One letter per flag that is set. */
  function EncodeSources(s: DiscoverySource): string {
    (if s.sitemap then "s" else "") + (if s.domLink then "d" else "") + (if s.cmsApi then "c" else "")
  }

  /** A value read back from JSON: text, a list, or anything else. */
  datatype Json = Text(text: string) | List(items: seq<Json>) | Other

  predicate Spelled(entry: Json) {
    entry.Text? && forall c :: c in entry.text ==> c == 's' || c == 'd' || c == 'c'
  }

  /** The flags an entry sets. */
  predicate Sets(entry: Json, s: DiscoverySource) {
    && Spelled(entry)
    && (s.sitemap <==> 's' in entry.text)
    && (s.domLink <==> 'd' in entry.text)
    && (s.cmsApi <==> 'c' in entry.text)
  }

  /** What reading `raw` for `count` URLs must give: `None` on a length that does not
      match or an entry with an unknown letter, else one flag set per entry, in order. */
  ghost predicate Reads(raw: Option<Json>, count: nat, r: Option<seq<DiscoverySource>>) {
    && (r.Some? <==>
          && raw.Some? && raw.value.List? && |raw.value.items| == count
          && forall e :: e in raw.value.items ==> Spelled(e))
    && (r.Some? ==>
          |r.value| == count && forall i :: 0 <= i < count ==> Sets(raw.value.items[i], r.value[i]))
  }

  /** `_checkpoint_sources`; `raw` is what the checkpoint holds under "sources". */
  method CheckpointSources(raw: Option<Json>, count: nat) returns (r: Option<seq<DiscoverySource>>)
    ensures Reads(raw, count, r)
  {
    if raw.None? || !raw.value.List? || |raw.value.items| != count {
      return None;
    }
    var items := raw.value.items;
    var decoded: seq<DiscoverySource> := [];
    var i := 0;
    while i < |items|
      invariant 0 <= i <= |items| && |decoded| == i
      invariant forall k :: 0 <= k < i ==> Sets(items[k], decoded[k])
    {
      var entry := items[i];
      if !Spelled(entry) {
        return None;
      }
      decoded := decoded + [DiscoverySource('s' in entry.text, 'd' in entry.text, 'c' in entry.text)];
      i := i + 1;
    }
    return Some(decoded);
  }

  function Spell(flags: seq<DiscoverySource>): Json {
    List(seq(|flags|, i requires 0 <= i < |flags| => Json.Text(EncodeSources(flags[i]))))
  }

  lemma LettersAreFlags(s: DiscoverySource)
    ensures Spelled(Json.Text(EncodeSources(s)))
    ensures 's' in EncodeSources(s) <==> s.sitemap
    ensures 'd' in EncodeSources(s) <==> s.domLink
    ensures 'c' in EncodeSources(s) <==> s.cmsApi
    ensures forall i, k :: 0 <= i < k < |EncodeSources(s)| ==>
      LetterOrder(EncodeSources(s)[i]) < LetterOrder(EncodeSources(s)[k])
  {
  }

  /** Letters are written in this order, none twice. */
  function LetterOrder(c: char): nat {
    match c
    case 's' => 0
    case 'd' => 1
    case _ => 2
  }

  /** Whatever reads a checkpoint as it must gives back exactly the flags that were
      written, index by index, and refuses them for any other number of URLs. */
  lemma FlagsRoundTrip(flags: seq<DiscoverySource>, count: nat, r: Option<seq<DiscoverySource>>)
    requires Reads(Some(Spell(flags)), count, r)
    ensures r == if count == |flags| then Some(flags) else None
  {
    var items := Spell(flags).items;
    forall i | 0 <= i < |flags| ensures Spelled(items[i]) {
      LettersAreFlags(flags[i]);
    }
    if r.Some? {
      forall i | 0 <= i < |flags| ensures r.value[i] == flags[i] {
        LettersAreFlags(flags[i]);
        assert Sets(items[i], r.value[i]);
      }
      assert r.value == flags;
    }
  }

  /** One unknown letter anywhere loses every flag. */
  lemma UnknownLetterRefusesAll(entries: seq<Json>, r: Option<seq<DiscoverySource>>, i: nat, c: char)
    requires i < |entries| && entries[i].Text? && c in entries[i].text && c != 's' && c != 'd' && c != 'c'
    requires Reads(Some(List(entries)), |entries|, r)
    ensures r.None?
  {
    assert entries[i] in entries && !Spelled(entries[i]);
  }

  // ------------------------------------------------------------ resuming

  datatype Resume = NotResumable | NothingLeft | Resumed(seeds: seq<string>, excluded: seq<string>)

  /** The strings of a JSON list, in order. */
  function Strings(items: seq<Json>): (r: seq<string>)
    ensures forall u :: u in r <==> Json.Text(u) in items
  {
    if items == [] then []
    else if items[0].Text? then [items[0].text] + Strings(items[1..])
    else Strings(items[1..])
  }

  function Without(urls: seq<string>, gone: set<string>): (r: seq<string>)
    ensures forall u :: u in r <==> u in urls && u !in gone
  {
    if urls == [] then []
    else if urls[0] in gone then Without(urls[1..], gone)
    else [urls[0]] + Without(urls[1..], gone)
  }

  /** The split of `resume_job`, from the checkpoint's two lists as they were read. */
  function ResumeFrom(unfetched: Option<Json>, urls: Option<Json>): Resume {
    if unfetched.None? || !unfetched.value.List? then NotResumable
    else
      var remaining := Strings(unfetched.value.items);
      if remaining == [] then NothingLeft
      else if urls.None? || !urls.value.List? then Resumed(remaining, [])
      else Resumed(remaining, Without(Strings(urls.value.items), Elements(remaining)))
  }

  /** A resume fetches nothing twice and forgets nothing: its seeds and exclusions are
      disjoint, and together cover exactly what was discovered if and only if everything
      left to fetch had been discovered. */
  lemma ResumePartitions(unfetched: Json, urls: Json)
    requires unfetched.List? && urls.List?
    ensures var seeds, found := Strings(unfetched.items), Strings(urls.items);
      var r := ResumeFrom(Some(unfetched), Some(urls));
      && (r.Resumed? <==> seeds != [])
      && (r.Resumed? ==>
            && Elements(r.seeds) == Elements(seeds)
            && Elements(r.seeds) !! Elements(r.excluded)
            && (Elements(r.seeds) + Elements(r.excluded) == Elements(found)
                <==> Elements(seeds) <= Elements(found)))
  {
    var seeds, found := Strings(unfetched.items), Strings(urls.items);
    if seeds != [] {
      var gone := Without(found, Elements(seeds));
      assert Elements(seeds) + Elements(gone) == Elements(seeds) + Elements(found);
    }
  }

  function Texts(items: seq<Json>): set<Json> {
    set x | x in items && x.Text?
  }

  lemma ListEmpty()
    ensures AsList([]) == List([])
  {
    assert AsList([]).items == [];
  }

  lemma ListFirst(u: string, rest: seq<string>)
    ensures AsList([u] + rest).List? && AsList(rest).List?
    ensures AsList([u] + rest).items == [Json.Text(u)] + AsList(rest).items
  {
  }

  lemma {:induction false} StringsFilter(items: seq<Json>, wanted: set<Json>)
    requires forall x :: x in wanted ==> x.Text?
    requires forall x :: x in items && x.Text? ==> x in wanted
    ensures Filters(AsList(Strings(items)).items, items, wanted)
  {
    hide AsList, Filters;
    if items == [] {
      ListEmpty();
      FiltersNone(wanted);
    } else {
      StringsFilter(items[1..], wanted);
      var rest := Strings(items[1..]);
      assert items == [items[0]] + items[1..];
      FiltersFront(AsList(rest).items, items[0], items[1..], wanted);
      if items[0].Text? {
        ListFirst(items[0].text, rest);
      }
    }
  }

  lemma {:induction false} WithoutFilters(urls: seq<string>, gone: set<string>, wanted: set<string>)
    requires forall u :: u in urls ==> (u in wanted <==> u !in gone)
    ensures Filters(Without(urls, gone), urls, wanted)
  {
    if urls == [] {
      FiltersNone(wanted);
    } else {
      WithoutFilters(urls[1..], gone, wanted);
      assert urls == [urls[0]] + urls[1..];
      FiltersFront(Without(urls[1..], gone), urls[0], urls[1..], wanted);
      hide Filters;
    }
  }

  /** The resume, exactly, for whatever a checkpoint holds under the two names: refused
      without a list of what was left, told apart from a list with no URL in it; else the
      seeds are that list's URLs and the exclusions the discovered URLs that are no seed,
      each in order and as often as listed, or none without a discovered list. */
  lemma {:induction false} ResumeExactly(unfetched: Option<Json>, urls: Option<Json>)
    ensures var r := ResumeFrom(unfetched, urls);
      && (r.NotResumable? <==> unfetched.None? || !unfetched.value.List?)
      && (r.NothingLeft? <==> unfetched.Some? && unfetched.value.List? && Texts(unfetched.value.items) == {})
      && (r.Resumed? ==>
            && Filters(AsList(r.seeds).items, unfetched.value.items, Texts(unfetched.value.items))
            && (urls.None? || !urls.value.List? ==> r.excluded == [])
            && (urls.Some? && urls.value.List? ==>
                  Filters(AsList(r.excluded).items, urls.value.items,
                          Texts(urls.value.items) - Texts(unfetched.value.items))))
  {
    if unfetched.Some? && unfetched.value.List? {
      var items := unfetched.value.items;
      var remaining := Strings(items);
      StringsFilter(items, Texts(items));
      if remaining == [] {
        NoTexts(items);
      } else {
        assert Json.Text(remaining[0]) in Texts(items);
        if urls.Some? && urls.value.List? {
          ExcludedFilters(urls.value.items, items);
        }
      }
    }
    hide Filters;
  }

  lemma {:induction false} NoTexts(items: seq<Json>)
    requires Strings(items) == []
    ensures Texts(items) == {}
  {
    if items != [] {
      NoTexts(items[1..]);
      assert items == [items[0]] + items[1..];
    }
  }

  lemma {:induction false} ExcludedFilters(found: seq<Json>, items: seq<Json>)
    ensures Filters(AsList(Without(Strings(found), Elements(Strings(items)))).items, found, Texts(found) - Texts(items))
  {
    ExcludedOf(found, items, Texts(found) - Texts(items));
  }

  lemma {:induction false} ExcludedOf(found: seq<Json>, items: seq<Json>, wanted: set<Json>)
    requires forall x :: x in found ==> (x in wanted <==> x.Text? && x !in items)
    ensures Filters(AsList(Without(Strings(found), Elements(Strings(items)))).items, found, wanted)
  {
    hide AsList, Filters;
    var gone := Elements(Strings(items));
    if found == [] {
      ListEmpty();
      FiltersNone(wanted);
    } else {
      ExcludedOf(found[1..], items, wanted);
      assert found == [found[0]] + found[1..];
      var more := Strings(found[1..]);
      var rest := Without(more, gone);
      FiltersFront(AsList(rest).items, found[0], found[1..], wanted);
      if found[0].Text? {
        var u := found[0].text;
        assert Strings(found) == [u] + more && ([u] + more)[1..] == more;
        ListFirst(u, rest);
        assert u in gone <==> found[0] in items;
        assert Without([u] + more, gone) == if u in gone then rest else [u] + rest;
      } else {
        assert Strings(found) == more;
      }
      hide Without, Strings;
    }
  }

  function AsList(urls: seq<string>): (r: Json)
    ensures r.List?
  {
    List(seq(|urls|, i requires 0 <= i < |urls| => Json.Text(urls[i])))
  }

  lemma {:induction false} StringsOfList(urls: seq<string>)
    ensures Strings(AsList(urls).items) == urls
  {
    var items := AsList(urls).items;
    if urls != [] {
      StringsOfList(urls[1..]);
      assert AsList(urls[1..]).items == items[1..];
      assert [urls[0]] + urls[1..] == urls;
    }
  }

  /** From checkpoint to resume: the seeds are the URLs the interrupted crawl had still
      to fetch and the exclusions are the ones it had fetched, both in their order. */
  lemma {:induction false} ResumeContinues(found: seq<string>, unfetched: seq<string>)
    requires unfetched != [] && Elements(unfetched) <= Elements(found)
    ensures ResumeFrom(Some(AsList(unfetched)), Some(AsList(found)))
         == Resumed(unfetched, Without(found, Elements(unfetched)))
    ensures Filters(Without(found, Elements(unfetched)), found, Elements(found) - Elements(unfetched))
    ensures Elements(unfetched) + Elements(Without(found, Elements(unfetched))) == Elements(found)
  {
    WithoutFilters(found, Elements(unfetched), Elements(found) - Elements(unfetched));
    StringsOfList(unfetched);
    StringsOfList(found);
  }
}
