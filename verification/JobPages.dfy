/** Paging through jobs (packages/queue/src/queue/core/queue.ts, lines 1560-1687):
    stable cursors resume after a key, numeric cursors at an offset. */
module JobPages {
  import opened Options

  datatype JobState = Ready | Delayed | Leased

  /** What the stable order compares. */
  datatype Key = Key(enqueuedAt: real, state: JobState, id: string)

  /** A job view: its key and everything else it shows. */
  datatype Job<V> = Job(key: Key, view: V)

  function Rank(state: JobState): nat {
    match state case Ready => 0 case Delayed => 1 case Leased => 2
  }

  /** String `<` from position `i` on: by the first differing character. */
  predicate TextLess(a: string, b: string, i: nat)
    decreases |a| - i
  {
    if i >= |b| then false
    else if i >= |a| then true
    else if a[i] != b[i] then a[i] < b[i]
    else TextLess(a, b, i + 1)
  }

  predicate Less(a: Key, b: Key) {
    if a.enqueuedAt != b.enqueuedAt then a.enqueuedAt < b.enqueuedAt
    else if Rank(a.state) != Rank(b.state) then Rank(a.state) < Rank(b.state)
    else TextLess(a.id, b.id, 0)
  }

  lemma {:induction false} TextLessIsTotal(a: string, b: string, i: nat)
    requires i <= |a| && i <= |b| && forall k :: 0 <= k < i ==> a[k] == b[k]
    ensures TextLess(a, b, i) || TextLess(b, a, i) || a == b
    ensures !(TextLess(a, b, i) && TextLess(b, a, i))
    decreases |a| - i
  {
    if i < |a| && i < |b| && a[i] == b[i] {
      TextLessIsTotal(a, b, i + 1);
    }
  }

  lemma {:induction false} TextLessIsTransitive(a: string, b: string, c: string, i: nat)
    requires TextLess(a, b, i) && TextLess(b, c, i)
    ensures TextLess(a, c, i)
    decreases |a| - i
  {
    if i < |a| && i < |b| && i < |c| && a[i] == b[i] == c[i] {
      TextLessIsTransitive(a, b, c, i + 1);
    }
  }

  lemma LessIsTotal(a: Key, b: Key)
    ensures Less(a, b) || Less(b, a) || a == b
    ensures !(Less(a, b) && Less(b, a))
    ensures !Less(a, a)
  {
    TextLessIsTotal(a.id, b.id, 0);
    TextLessIsTotal(a.id, a.id, 0);
  }

  lemma LessIsTransitive(a: Key, b: Key, c: Key)
    requires Less(a, b) && Less(b, c)
    ensures Less(a, c)
  {
    if TextLess(a.id, b.id, 0) && TextLess(b.id, c.id, 0) {
      TextLessIsTransitive(a.id, b.id, c.id, 0);
    }
  }

  /** One text is before another: it is a proper start of it, or the first difference decides. */
  ghost predicate TextBefore(a: string, b: string) {
    exists k: nat :: DiffersAt(a, b, k)
  }

  ghost predicate DiffersAt(a: string, b: string, k: nat) {
    k <= |a| && k < |b| && a[..k] == b[..k] && (k == |a| || a[k] < b[k])
  }

  lemma {:induction false} TextLessIs(a: string, b: string, i: nat)
    requires i <= |a| && i <= |b| && a[..i] == b[..i]
    ensures TextLess(a, b, i) <==> TextBefore(a, b)
    decreases |a| - i
  {
    if i < |a| && i < |b| && a[i] == b[i] {
      assert a[..i + 1] == a[..i] + [a[i]] && b[..i + 1] == b[..i] + [b[i]];
      TextLessIs(a, b, i + 1);
    } else {
      if TextLess(a, b, i) {
        assert DiffersAt(a, b, i);
      }
      forall k: nat | DiffersAt(a, b, k)
        ensures k == i
      {
        FirstDifference(a, b, i, k);
      }
    }
  }

  lemma FirstDifference(a: string, b: string, i: nat, k: nat)
    requires i <= |a| && i <= |b| && a[..i] == b[..i] && (i == |a| || i == |b| || a[i] != b[i])
    requires DiffersAt(a, b, k)
    ensures k == i
  {
    assert forall j :: 0 <= j < i ==> a[..i][j] == a[j] && b[..i][j] == b[j];
    assert forall j :: 0 <= j < k ==> a[..k][j] == a[j] && b[..k][j] == b[j];
  }

  predicate StateBefore(a: JobState, b: JobState) {
    (a.Ready? && !b.Ready?) || (a.Delayed? && b.Leased?)
  }

  /** The stable order: older jobs first, then ready before delayed before leased, then by id. */
  lemma LessIs(a: Key, b: Key)
    ensures Less(a, b) <==>
      || a.enqueuedAt < b.enqueuedAt
      || (a.enqueuedAt == b.enqueuedAt && StateBefore(a.state, b.state))
      || (a.enqueuedAt == b.enqueuedAt && a.state == b.state && TextBefore(a.id, b.id))
  {
    TextLessIs(a.id, b.id, 0);
  }

  // ---------------------------------------------------------------- sorting

  ghost predicate Sorted<V>(jobs: seq<Job<V>>) {
    forall i, j :: 0 <= i < j < |jobs| ==> !Less(jobs[j].key, jobs[i].key)
  }

  /** Stable insertion: after every job that is not greater. */
  function Insert<V>(jobs: seq<Job<V>>, job: Job<V>): seq<Job<V>> {
    if jobs == [] || !Less(job.key, jobs[|jobs| - 1].key) then jobs + [job]
    else Insert(jobs[..|jobs| - 1], job) + [jobs[|jobs| - 1]]
  }

  function Sort<V>(jobs: seq<Job<V>>): seq<Job<V>> {
    if jobs == [] then [] else Insert(Sort(jobs[..|jobs| - 1]), jobs[|jobs| - 1])
  }

  lemma {:induction false} InsertSorts<V>(jobs: seq<Job<V>>, job: Job<V>)
    requires Sorted(jobs)
    ensures Sorted(Insert(jobs, job))
    ensures multiset(Insert(jobs, job)) == multiset(jobs) + multiset{job}
  {
    if jobs == [] {
    } else if !Less(job.key, jobs[|jobs| - 1].key) {
      var last := jobs[|jobs| - 1];
      forall i | 0 <= i < |jobs|
        ensures !Less(job.key, jobs[i].key)
      {
        if Less(job.key, jobs[i].key) {
          LessIsTotal(jobs[i].key, last.key);
          if Less(jobs[i].key, last.key) {
            LessIsTransitive(job.key, jobs[i].key, last.key);
          }
        }
      }
    } else {
      var init, last := jobs[..|jobs| - 1], jobs[|jobs| - 1];
      assert jobs == init + [last];
      InsertSorts(init, job);
      var rest := Insert(init, job);
      forall i | 0 <= i < |rest|
        ensures !Less(last.key, rest[i].key)
      {
        assert rest[i] in multiset(rest);
        if rest[i] in init {
          var k :| 0 <= k < |init| && init[k] == rest[i];
          assert jobs[k] == rest[i];
        }
        LessIsTotal(job.key, last.key);
      }
    }
  }

  lemma {:induction false} SortSorts<V>(jobs: seq<Job<V>>)
    ensures Sorted(Sort(jobs)) && multiset(Sort(jobs)) == multiset(jobs)
  {
    if jobs != [] {
      var init := jobs[..|jobs| - 1];
      assert jobs == init + [jobs[|jobs| - 1]];
      SortSorts(init);
      InsertSorts(Sort(init), jobs[|jobs| - 1]);
    }
  }

  // ----------------------------------------------------------- stable pages

  datatype Page<V> = Page(items: seq<Job<V>>, next: Option<Key>)

  /** Position of the first job after the cursor. */
  function Start<V>(sorted: seq<Job<V>>, cursor: Option<Key>): (k: nat)
    ensures k <= |sorted|
  {
    StartFrom(sorted, cursor, 0)
  }

  function StartFrom<V>(sorted: seq<Job<V>>, cursor: Option<Key>, i: nat): (k: nat)
    requires i <= |sorted|
    ensures i <= k <= |sorted|
    decreases |sorted| - i
  {
    if cursor.None? || i == |sorted| || Less(cursor.value, sorted[i].key) then i
    else StartFrom(sorted, cursor, i + 1)
  }

  function Slice<V>(jobs: seq<Job<V>>, start: nat, limit: nat): seq<Job<V>>
    requires start <= |jobs|
  {
    if start + limit <= |jobs| then jobs[start..start + limit] else jobs[start..]
  }

  function StablePage<V>(jobs: seq<Job<V>>, cursor: Option<Key>, limit: nat): Page<V> {
    PageOf(Sort(jobs), cursor, limit)
  }

  function PageOf<V>(sorted: seq<Job<V>>, cursor: Option<Key>, limit: nat): Page<V> {
    var start := Start(sorted, cursor);
    var items := Slice(sorted, start, limit);
    Page(items, if start + |items| < |sorted| && items != [] then Some(items[|items| - 1].key) else None)
  }

  /** How many listed jobs carry a key. */
  function Count<V>(jobs: seq<Job<V>>, key: Key): nat {
    if jobs == [] then 0 else Count(jobs[..|jobs| - 1], key) + (if jobs[|jobs| - 1].key == key then 1 else 0)
  }

  predicate Pending(cursor: Option<Key>, key: Key) {
    cursor.None? || Less(cursor.value, key)
  }

  lemma {:induction false} StartFromIs<V>(sorted: seq<Job<V>>, cursor: Option<Key>, i: nat)
    requires i <= |sorted|
    ensures var k := StartFrom(sorted, cursor, i);
      && (forall j :: i <= j < k ==> !Pending(cursor, sorted[j].key))
      && (k < |sorted| ==> Pending(cursor, sorted[k].key))
    decreases |sorted| - i
  {
    if cursor.Some? && i < |sorted| && !Less(cursor.value, sorted[i].key) {
      StartFromIs(sorted, cursor, i + 1);
    }
  }

  lemma StartSplits<V>(sorted: seq<Job<V>>, cursor: Option<Key>)
    requires Sorted(sorted)
    ensures var k := Start(sorted, cursor);
      && (forall i :: 0 <= i < k ==> !Pending(cursor, sorted[i].key))
      && (forall i :: k <= i < |sorted| ==> Pending(cursor, sorted[i].key))
  {
    StartFromIs(sorted, cursor, 0);
    var k := Start(sorted, cursor);
    forall i | k <= i < |sorted|
      ensures Pending(cursor, sorted[i].key)
    {
      LessIsTotal(sorted[k].key, sorted[i].key);
      if cursor.Some? && Less(sorted[k].key, sorted[i].key) {
        LessIsTransitive(cursor.value, sorted[k].key, sorted[i].key);
      }
    }
  }

  lemma {:induction false} CountOfConcat<V>(a: seq<Job<V>>, b: seq<Job<V>>, key: Key)
    ensures Count(a + b, key) == Count(a, key) + Count(b, key)
  {
    if b == [] {
      assert a + b == a;
    } else {
      assert (a + b)[..|a + b| - 1] == a + b[..|b| - 1];
      CountOfConcat(a, b[..|b| - 1], key);
    }
  }

  lemma {:induction false} CountOfNone<V>(jobs: seq<Job<V>>, key: Key)
    requires forall i :: 0 <= i < |jobs| ==> jobs[i].key != key
    ensures Count(jobs, key) == 0
  {
    if jobs != [] {
      CountOfNone(jobs[..|jobs| - 1], key);
    }
  }

  lemma {:induction false} CountOfSome<V>(jobs: seq<Job<V>>, i: nat, key: Key)
    requires i < |jobs| && jobs[i].key == key
    ensures Count(jobs, key) >= 1
  {
    if i < |jobs| - 1 {
      CountOfSome(jobs[..|jobs| - 1], i, key);
    }
  }

  lemma {:induction false} CountOfInsert<V>(jobs: seq<Job<V>>, job: Job<V>, key: Key)
    ensures Count(Insert(jobs, job), key) == Count(jobs, key) + (if job.key == key then 1 else 0)
  {
    if jobs == [] || !Less(job.key, jobs[|jobs| - 1].key) {
    } else {
      CountOfInsert(jobs[..|jobs| - 1], job, key);
    }
  }

  lemma {:induction false} CountOfSort<V>(jobs: seq<Job<V>>, key: Key)
    ensures Count(Sort(jobs), key) == Count(jobs, key)
  {
    if jobs != [] {
      CountOfSort(jobs[..|jobs| - 1], key);
      CountOfInsert(Sort(jobs[..|jobs| - 1]), jobs[|jobs| - 1], key);
    }
  }

  lemma CountOfParts<V>(jobs: seq<Job<V>>, start: nat, end: nat, key: Key)
    requires start <= end <= |jobs|
    ensures Count(jobs, key) == Count(jobs[..start], key) + Count(jobs[start..end], key) + Count(jobs[end..], key)
  {
    assert jobs == jobs[..start] + jobs[start..end] + jobs[end..];
    CountOfConcat(jobs[..start] + jobs[start..end], jobs[end..], key);
    CountOfConcat(jobs[..start], jobs[start..end], key);
  }

  /** Among sorted jobs, those before position `end` are not above the one at `end - 1`,
      and those from `end` on are not below it. */
  lemma CutAt<V>(sorted: seq<Job<V>>, start: nat, end: nat, key: Key)
    requires Sorted(sorted) && start < end <= |sorted| && Count(sorted, key) == 1
    requires Count(sorted[..start], key) == 0
    ensures Count(sorted[start..end], key) == if Less(sorted[end - 1].key, key) then 0 else 1
  {
    var last := sorted[end - 1].key;
    CountOfParts(sorted, start, end, key);
    LessIsTotal(last, key);
    if Less(last, key) {
      forall i | 0 <= i < |sorted[start..end]|
        ensures sorted[start..end][i].key != key
      {
        assert !Less(last, sorted[start + i].key);
      }
      CountOfNone(sorted[start..end], key);
    } else if last == key {
      CountOfSome(sorted[start..end], end - start - 1, key);
    } else {
      forall i | 0 <= i < |sorted[end..]|
        ensures sorted[end..][i].key != key
      {
        assert !Less(sorted[end + i].key, last);
      }
      CountOfNone(sorted[end..], key);
    }
  }

  lemma UnlistedBefore<V>(sorted: seq<Job<V>>, start: nat, end: nat, cursor: Option<Key>, key: Key)
    requires start <= end <= |sorted| && !Pending(cursor, key)
    requires forall i :: start <= i < |sorted| ==> Pending(cursor, sorted[i].key)
    ensures Count(sorted[start..end], key) == 0
  {
    CountOfNone(sorted[start..end], key);
  }

  lemma UnlistedUpTo<V>(sorted: seq<Job<V>>, start: nat, cursor: Option<Key>, key: Key)
    requires start <= |sorted| && Pending(cursor, key)
    requires forall i :: 0 <= i < start ==> !Pending(cursor, sorted[i].key)
    ensures Count(sorted[..start], key) == 0
  {
    CountOfNone(sorted[..start], key);
  }

  /** A page as a stretch of the sorted jobs. */
  lemma PageIs<V>(sorted: seq<Job<V>>, cursor: Option<Key>, limit: nat)
    requires limit >= 1
    ensures var page, start := PageOf(sorted, cursor, limit), Start(sorted, cursor);
      var end := start + |page.items|;
      && end <= |sorted| && page.items == sorted[start..end]
      && (start == end ==> end == |sorted|)
      && page.next == (if end < |sorted| then Some(sorted[end - 1].key) else None)
  {
    var start := Start(sorted, cursor);
    var items := Slice(sorted, start, limit);
    assert items == sorted[start..start + |items|];
  }

  /** The jobs from the cursor up to `end` list an unshared key exactly when it lies between. */
  lemma StretchCovers<V>(sorted: seq<Job<V>>, cursor: Option<Key>, end: nat, key: Key)
    requires Sorted(sorted) && Start(sorted, cursor) <= end <= |sorted| && Count(sorted, key) == 1
    requires Start(sorted, cursor) == end ==> end == |sorted|
    ensures Count(sorted[Start(sorted, cursor)..end], key)
         == if Pending(cursor, key) && (end == |sorted| || !Pending(Some(sorted[end - 1].key), key)) then 1 else 0
    ensures end < |sorted| ==> Pending(cursor, sorted[end - 1].key)
  {
    var start := Start(sorted, cursor);
    StartSplits(sorted, cursor);
    if Pending(cursor, key) {
      UnlistedUpTo(sorted, start, cursor, key);
      CountOfParts(sorted, start, end, key);
      if start < end {
        CutAt(sorted, start, end, key);
      }
    } else {
      UnlistedBefore(sorted, start, end, cursor, key);
    }
  }

  lemma PageOfCovers<V>(sorted: seq<Job<V>>, cursor: Option<Key>, limit: nat, key: Key)
    requires limit >= 1 && Sorted(sorted) && Count(sorted, key) == 1
    ensures var page := PageOf(sorted, cursor, limit);
      && Count(page.items, key) ==
        (if Pending(cursor, key) && (page.next.None? || !Pending(page.next, key)) then 1 else 0)
      && (page.next.Some? ==> Pending(cursor, page.next.value))
  {
    PageIs(sorted, cursor, limit);
    StretchCovers(sorted, cursor, Start(sorted, cursor) + |PageOf(sorted, cursor, limit).items|, key);
  }

  /** A page lists an unshared key exactly when the key lies between its two cursors. */
  lemma PageCovers<V>(jobs: seq<Job<V>>, cursor: Option<Key>, limit: nat, key: Key)
    requires limit >= 1 && Count(jobs, key) == 1
    ensures var page := StablePage(jobs, cursor, limit);
      && Count(page.items, key) ==
        (if Pending(cursor, key) && (page.next.None? || !Pending(page.next, key)) then 1 else 0)
      && (page.next.Some? ==> Pending(cursor, page.next.value))
  {
    SortSorts(jobs);
    CountOfSort(jobs, key);
    PageOfCovers(Sort(jobs), cursor, limit, key);
  }

  /** One call of the listing: the jobs the queue holds at that moment, and the page size asked for. */
  datatype Call<V> = Call(jobs: seq<Job<V>>, limit: nat)

  /** The pages of consecutive calls, each from the cursor of the one before. */
  function Listing<V>(calls: seq<Call<V>>, cursor: Option<Key>): seq<Job<V>>
    decreases |calls|
  {
    if calls == [] then []
    else
      var page := StablePage(calls[0].jobs, cursor, calls[0].limit);
      page.items + (if page.next.None? then [] else Listing(calls[1..], page.next))
  }

  /** The last page read carried no further cursor. */
  predicate Completed<V>(calls: seq<Call<V>>, cursor: Option<Key>)
    decreases |calls|
  {
    calls != [] &&
    var page := StablePage(calls[0].jobs, cursor, calls[0].limit);
    page.next.None? || Completed(calls[1..], page.next)
  }

  lemma {:induction false} ListedOnceFrom<V>(calls: seq<Call<V>>, cursor: Option<Key>, key: Key)
    requires Completed(calls, cursor)
    requires forall call :: call in calls ==> call.limit >= 1 && Count(call.jobs, key) == 1
    ensures Count(Listing(calls, cursor), key) == if Pending(cursor, key) then 1 else 0
    decreases |calls|
  {
    var page := StablePage(calls[0].jobs, cursor, calls[0].limit);
    PageCovers(calls[0].jobs, cursor, calls[0].limit, key);
    if page.next.None? {
      assert page.items + [] == page.items;
    } else {
      ListedOnceFrom(calls[1..], page.next, key);
      CountOfConcat(page.items, Listing(calls[1..], page.next), key);
      if !Pending(cursor, key) && Pending(page.next, key) {
        LessIsTransitive(cursor.value, page.next.value, key);
      }
    }
  }

  /** While other jobs come and go and the page size changes between pages, a job whose key
      stays and is unshared at every call is listed exactly once by a completed listing. */
  lemma StayingJobIsListedOnce<V>(calls: seq<Call<V>>, key: Key)
    requires Completed(calls, None)
    requires forall call :: call in calls ==> call.limit >= 1 && Count(call.jobs, key) == 1
    ensures Count(Listing(calls, None), key) == 1
  {
    ListedOnceFrom(calls, None, key);
  }

  // ----------------------------------------------------- an unchanging queue

  ghost predicate DistinctKeys<V>(jobs: seq<Job<V>>) {
    forall i, j :: 0 <= i < j < |jobs| ==> jobs[i].key != jobs[j].key
  }

  function Pages<V>(jobs: seq<Job<V>>, limit: nat, n: nat): seq<Call<V>> {
    seq(n, _ => Call(jobs, limit))
  }

  /** With distinct keys the cursor after position `end` resumes at `end`. */
  lemma ResumesAt<V>(sorted: seq<Job<V>>, end: nat)
    requires Sorted(sorted) && DistinctKeys(sorted) && 0 < end <= |sorted|
    ensures Start(sorted, Some(sorted[end - 1].key)) == end
  {
    var cursor := Some(sorted[end - 1].key);
    var k := Start(sorted, cursor);
    StartSplits(sorted, cursor);
    LessIsTotal(sorted[end - 1].key, sorted[end - 1].key);
    if k > end {
      LessIsTotal(sorted[end - 1].key, sorted[end].key);
    }
  }

  /** `n` pages read one after the other, each from the cursor of the one before. */
  function Chain<V>(page: Option<Key> -> Page<V>, cursor: Option<Key>, n: nat): seq<Job<V>>
    decreases n
  {
    if n == 0 then []
    else page(cursor).items + (if page(cursor).next.None? then [] else Chain(page, page(cursor).next, n - 1))
  }

  predicate Ends<V>(page: Option<Key> -> Page<V>, cursor: Option<Key>, n: nat)
    decreases n
  {
    n > 0 && (page(cursor).next.None? || Ends(page, page(cursor).next, n - 1))
  }

  function PageFrom<V>(jobs: seq<Job<V>>, limit: nat): Option<Key> -> Page<V> {
    cursor => StablePage(jobs, cursor, limit)
  }

  /** The jobs still to be listed after a cursor. */
  function RestAfter<V>(jobs: seq<Job<V>>): Option<Key> -> seq<Job<V>> {
    cursor => Sort(jobs)[Start(Sort(jobs), cursor)..]
  }

  lemma {:induction false} ListingIsChain<V>(jobs: seq<Job<V>>, cursor: Option<Key>, limit: nat, n: nat)
    ensures Listing(Pages(jobs, limit, n), cursor) == Chain(PageFrom(jobs, limit), cursor, n)
    ensures Completed(Pages(jobs, limit, n), cursor) <==> Ends(PageFrom(jobs, limit), cursor, n)
    decreases n
  {
    if n > 0 {
      var calls := Pages(jobs, limit, n);
      assert calls[0] == Call(jobs, limit) && calls[1..] == Pages(jobs, limit, n - 1);
      var page := PageFrom(jobs, limit)(cursor);
      if page.next.Some? {
        ListingIsChain(jobs, page.next, limit, n - 1);
      }
    }
  }

  /** A page takes a stretch off the front of what is left. */
  ghost predicate TakesOff<V>(page: Page<V>, before: seq<Job<V>>, after: seq<Job<V>>) {
    if page.next.None? then page.items == before else page.items + after == before && |after| < |before|
  }

  lemma {:induction false} ChainTiles<V>(page: Option<Key> -> Page<V>, rest: Option<Key> -> seq<Job<V>>,
                                         cursor: Option<Key>, n: nat)
    requires forall c :: TakesOff(page(c), rest(c), rest(page(c).next))
    requires n > |rest(cursor)|
    ensures Ends(page, cursor, n) && Chain(page, cursor, n) == rest(cursor)
    decreases n
  {
    assert TakesOff(page(cursor), rest(cursor), rest(page(cursor).next));
    if page(cursor).next.Some? {
      ChainTiles(page, rest, page(cursor).next, n - 1);
    }
  }

  lemma {:induction false} ChainFits<V>(page: Option<Key> -> Page<V>, rest: Option<Key> -> seq<Job<V>>,
                                        cursor: Option<Key>, n: nat)
    requires forall c :: Fits(page(c), rest(c), rest(page(c).next))
    ensures |Chain(page, cursor, n)| <= |rest(cursor)|
    decreases n
  {
    assert Fits(page(cursor), rest(cursor), rest(page(cursor).next));
    if n > 0 && page(cursor).next.Some? {
      ChainFits(page, rest, page(cursor).next, n - 1);
    }
  }

  lemma ChainLoses<V>(page: Option<Key> -> Page<V>, rest: Option<Key> -> seq<Job<V>>, size: nat, n: nat)
    requires forall c :: Fits(page(c), rest(c), rest(page(c).next))
    requires page(None).next.Some? && |page(None).items| + |rest(page(None).next)| < size
    ensures |Chain(page, None, n)| < size
  {
    if n > 0 {
      ChainFits(page, rest, page(None).next, n - 1);
    }
  }

  /** A cursor never goes back before the end of the page it came from. */
  ghost predicate Fits<V>(page: Page<V>, before: seq<Job<V>>, after: seq<Job<V>>) {
    if page.next.None? then |page.items| <= |before| else |page.items| + |after| <= |before|
  }

  /** One page of an unchanging queue: what it lists, and where the next one resumes. */
  lemma PageTakesOff<V>(sorted: seq<Job<V>>, cursor: Option<Key>, limit: nat)
    requires limit >= 1 && Sorted(sorted) && DistinctKeys(sorted)
    ensures var page := PageOf(sorted, cursor, limit);
      TakesOff(page, sorted[Start(sorted, cursor)..], sorted[Start(sorted, page.next)..])
  {
    PageIs(sorted, cursor, limit);
    var start := Start(sorted, cursor);
    var end := start + |PageOf(sorted, cursor, limit).items|;
    if end < |sorted| {
      ResumesAt(sorted, end);
      JoinSlices(sorted, start, end);
    }
  }

  lemma JoinSlices<T>(s: seq<T>, a: nat, b: nat)
    requires a <= b <= |s|
    ensures s[a..b] + s[b..] == s[a..]
  {
  }

  lemma SortKeepsLength<V>(jobs: seq<Job<V>>)
    ensures |Sort(jobs)| == |jobs|
  {
    SortSorts(jobs);
    assert |multiset(Sort(jobs))| == |multiset(jobs)|;
  }

  /** The listing read from an unchanging queue, page after page. */
  function FullListing<V>(jobs: seq<Job<V>>, limit: nat): seq<Job<V>> {
    Chain(PageFrom(jobs, limit), None, |jobs| + 1)
  }

  lemma PagesTakeOff<V>(jobs: seq<Job<V>>, limit: nat)
    requires limit >= 1 && DistinctKeys(Sort(jobs))
    ensures forall c ::
      TakesOff(PageFrom(jobs, limit)(c), RestAfter(jobs)(c), RestAfter(jobs)(PageFrom(jobs, limit)(c).next))
  {
    SortSorts(jobs);
    forall c
      ensures TakesOff(PageFrom(jobs, limit)(c), RestAfter(jobs)(c), RestAfter(jobs)(PageFrom(jobs, limit)(c).next))
    {
      PageTakesOff(Sort(jobs), c, limit);
    }
  }

  /** On an unchanging queue with distinct keys the stable pages tile the sorted job list. */
  lemma StablePagesTile<V>(jobs: seq<Job<V>>, limit: nat)
    requires limit >= 1 && DistinctKeys(Sort(jobs))
    ensures Completed(Pages(jobs, limit, |jobs| + 1), None)
    ensures FullListing(jobs, limit) == Listing(Pages(jobs, limit, |jobs| + 1), None) == Sort(jobs)
  {
    SortKeepsLength(jobs);
    ListingIsChain(jobs, None, limit, |jobs| + 1);
    PagesTakeOff(jobs, limit);
    assert RestAfter(jobs)(None) == Sort(jobs);
    ChainTiles(PageFrom(jobs, limit), RestAfter(jobs), None, |jobs| + 1);
  }

  lemma PageFits<V>(sorted: seq<Job<V>>, cursor: Option<Key>, limit: nat)
    requires limit >= 1 && Sorted(sorted)
    ensures var page := PageOf(sorted, cursor, limit);
      Fits(page, sorted[Start(sorted, cursor)..], sorted[Start(sorted, page.next)..])
  {
    PageIs(sorted, cursor, limit);
    var page := PageOf(sorted, cursor, limit);
    if page.next.Some? {
      StartPasses(sorted, Start(sorted, cursor) + |page.items|);
    }
  }

  lemma StartPasses<V>(sorted: seq<Job<V>>, end: nat)
    requires Sorted(sorted) && 0 < end <= |sorted|
    ensures Start(sorted, Some(sorted[end - 1].key)) >= end
  {
    var cursor := Some(sorted[end - 1].key);
    StartSplits(sorted, cursor);
    LessIsTotal(sorted[end - 1].key, sorted[end - 1].key);
    assert !Pending(cursor, sorted[end - 1].key);
  }

  lemma PagesFit<V>(jobs: seq<Job<V>>, limit: nat)
    requires limit >= 1
    ensures forall c ::
      Fits(PageFrom(jobs, limit)(c), RestAfter(jobs)(c), RestAfter(jobs)(PageFrom(jobs, limit)(c).next))
  {
    SortSorts(jobs);
    forall c
      ensures Fits(PageFrom(jobs, limit)(c), RestAfter(jobs)(c), RestAfter(jobs)(PageFrom(jobs, limit)(c).next))
    {
      PageFits(Sort(jobs), c, limit);
    }
  }

  lemma SharedCursorSkips<V>(sorted: seq<Job<V>>, i: nat, j: nat)
    requires Sorted(sorted) && i < j < |sorted| && sorted[i].key == sorted[j].key
    ensures Start(sorted, Some(sorted[i].key)) > j
  {
    StartSplits(sorted, Some(sorted[i].key));
    LessIsTotal(sorted[i].key, sorted[j].key);
  }

  /** A first page that ends between two jobs of one key, and what its cursor leaves. */
  lemma FirstPageSkips<V>(jobs: seq<Job<V>>, i: nat, j: nat)
    requires i < j < |Sort(jobs)| && Sort(jobs)[i].key == Sort(jobs)[j].key
    ensures var page := PageFrom(jobs, i + 1)(None);
      page.next.Some? && |page.items| + |RestAfter(jobs)(page.next)| < |Sort(jobs)|
  {
    SortSorts(jobs);
    PageIs(Sort(jobs), None, i + 1);
    SharedCursorSkips(Sort(jobs), i, j);
  }

  /** Two jobs with one key: a page that ends between them loses the second. */
  lemma SharedKeyIsLost<V>(jobs: seq<Job<V>>, i: nat, j: nat)
    requires i < j < |Sort(jobs)| && Sort(jobs)[i].key == Sort(jobs)[j].key
    ensures |FullListing(jobs, i + 1)| < |Sort(jobs)|
  {
    FirstPageSkips(jobs, i, j);
    PagesFit(jobs, i + 1);
    ChainLoses(PageFrom(jobs, i + 1), RestAfter(jobs), |Sort(jobs)|, |jobs| + 1);
  }

  /** Stable pages tile an unchanging queue at every page size exactly when no two jobs share a key. */
  lemma StablePagesTileIff<V>(jobs: seq<Job<V>>)
    ensures (forall limit: nat :: limit >= 1 ==> FullListing(jobs, limit) == Sort(jobs))
       <==> DistinctKeys(Sort(jobs))
  {
    if DistinctKeys(Sort(jobs)) {
      forall limit: nat | limit >= 1
        ensures FullListing(jobs, limit) == Sort(jobs)
      {
        StablePagesTile(jobs, limit);
      }
    } else {
      var i, j :| 0 <= i < j < |Sort(jobs)| && Sort(jobs)[i].key == Sort(jobs)[j].key;
      SharedKeyIsLost(jobs, i, j);
    }
  }

  // ---------------------------------------------------------- numeric offsets

  datatype OffsetPage<V> = OffsetPage(items: seq<V>, nextCursor: Option<nat>)

  /** The collecting loop of `listJobs`: skip `cursor` jobs, then take one more than a page. */
  method ListJobs<V>(jobs: seq<V>, cursor: nat, limit: nat) returns (page: OffsetPage<V>)
    requires limit >= 1
    ensures page.items ==
      if cursor > |jobs| then [] else if cursor + limit <= |jobs| then jobs[cursor..cursor + limit] else jobs[cursor..]
    ensures page.nextCursor == if cursor + limit < |jobs| then Some(cursor + limit) else None
  {
    var needed := cursor + limit + 1;
    var collected: seq<V> := [];
    var skipped := 0;
    var i := 0;
    while i < |jobs| && |collected| < needed
      invariant 0 <= i <= |jobs|
      invariant skipped == if i < cursor then i else cursor
      invariant |collected| <= needed
      invariant collected == if i < cursor then [] else jobs[cursor..i]
    {
      if skipped < cursor {
        skipped := skipped + 1;
      } else {
        collected := collected + [jobs[i]];
      }
      i := i + 1;
    }
    assert i == |jobs| || |collected| == needed;
    var items := if |collected| > limit then collected[..limit] else collected;
    assert |collected| > limit ==> items == jobs[cursor..cursor + limit];
    page := OffsetPage(items, if |collected| > |items| then Some(cursor + |items|) else None);
  }

  /** Following `nextCursor` from 0 reads the whole list, in order, without gaps. */
  method ListAllJobs<V>(jobs: seq<V>, limit: nat) returns (all: seq<V>)
    requires limit >= 1
    ensures all == jobs
  {
    var page := ListJobs(jobs, 0, limit);
    all := page.items;
    while page.nextCursor.Some?
      invariant page.nextCursor.Some? ==> page.nextCursor.value < |jobs| && all == jobs[..page.nextCursor.value]
      invariant page.nextCursor.None? ==> all == jobs
      decreases if page.nextCursor.Some? then |jobs| - page.nextCursor.value else 0
    {
      page := ListJobs(jobs, page.nextCursor.value, limit);
      all := all + page.items;
    }
  }
}
