/**
 * The proof cache (internal/audit/prefetch.go): what each of its lock sections does to the shared
 * maps, and what they keep.
 */
module Prefetch {
  import opened Basics
  import opened CacheNames

  /** The fields the mutex guards. */
  datatype Cache = Cache(cached: map<Name, nat>, ready: map<Origin, set<Epoch>>, bytes: int, inWork: set<Name>)

  /** The epochs ready for an origin: none if the map has no entry. */
  function ReadyOf(ready: map<Origin, set<Epoch>>, o: Origin): set<Epoch> {
    if o in ready then ready[o] else {}
  }

  // ----- sums of sizes

  ghost function Total(m: map<Name, nat>): nat
    decreases |m|
  {
    if m == map[] then 0
    else
      var k :| k in m;
      m[k] + Total(m - {k})
  }

  lemma {:induction false} TotalWithout(m: map<Name, nat>, k: Name)
    requires k in m
    ensures Total(m) == m[k] + Total(m - {k})
    decreases |m|
  {
    var q :| q in m && Total(m) == m[q] + Total(m - {q});
    if q != k {
      TotalWithout(m - {q}, k);
      TotalWithout(m - {k}, q);
      assert m - {q} - {k} == m - {k} - {q};
    }
  }

  lemma {:induction false} TotalWith(m: map<Name, nat>, k: Name, n: nat)
    requires k !in m
    ensures Total(m[k := n]) == Total(m) + n
  {
    TotalWithout(m[k := n], k);
    assert m[k := n] - {k} == m;
  }

  // ----- the lock sections

  /** A prefetcher's settings that matter to them: its cap, and the origins it holds proofs for. */
  datatype Config = Config(sum: Sum, origins: seq<Origin>, maxBytes: int)

  /** The cap in force: ten gigabytes unless one is set. */
  function Cap(g: Config): (n: nat)
    ensures n > 0
  {
    if g.maxBytes > 0 then g.maxBytes else 0x2_8000_0000
  }

  predicate Refuses(g: Config, c: Cache, k: Name) {
    k in c.cached || k in c.inWork || c.bytes >= Cap(g)
  }

  /** Fetch, first section: with room, and the proof neither held nor in flight, it is in flight. */
  function Admit(g: Config, c: Cache, id: Id): Cache {
    var k := CacheKey(g.sum, id.origin, id.epoch);
    if Refuses(g, c, k) then c else c.(inWork := c.inWork + {k})
  }

  function MarkReady(ready: map<Origin, set<Epoch>>, id: Id): map<Origin, set<Epoch>> {
    ready[id.origin := ReadyOf(ready, id.origin) + {id.epoch}]
  }

  /** delete(m, epoch) when there is an m. */
  function UnmarkReady(ready: map<Origin, set<Epoch>>, id: Id): map<Origin, set<Epoch>> {
    if id.origin in ready then ready[id.origin := ready[id.origin] - {id.epoch}] else ready
  }

  /** Fetch, last section but one: the download of n bytes is held. */
  function Store(g: Config, c: Cache, id: Id, n: nat): Cache {
    var k := CacheKey(g.sum, id.origin, id.epoch);
    c.(cached := c.cached[k := n], ready := MarkReady(c.ready, id), bytes := c.bytes + n)
  }

  /** Fetch, deferred: no longer in flight. */
  function Clear(g: Config, c: Cache, id: Id): Cache {
    c.(inWork := c.inWork - {CacheKey(g.sum, id.origin, id.epoch)})
  }

  function Release(g: Config, c: Cache, id: Id): Cache {
    var k := CacheKey(g.sum, id.origin, id.epoch);
    if k !in c.cached then c
    else c.(cached := c.cached - {k}, ready := UnmarkReady(c.ready, id), bytes := c.bytes - c.cached[k])
  }

  /** Prune, one proof dropped: it is forgotten from ready too if its name splits. */
  function Drop(g: Config, c: Cache, k: Name): Cache
    requires k in c.cached
  {
    var id := SplitKey(g.sum, g.origins, k);
    c.(cached := c.cached - {k}, bytes := c.bytes - c.cached[k],
       ready := if id.Some? then UnmarkReady(c.ready, id.value) else c.ready)
  }

  /** Prune, given the proofs it could stat, oldest first. */
  function Prune(g: Config, c: Cache, ents: seq<Name>): Cache
    requires Prunable(c, ents)
    decreases |ents|
  {
    if c.bytes <= Cap(g) || ents == [] then c else Prune(g, Drop(g, c, ents[0]), ents[1..])
  }

  predicate Prunable(c: Cache, ents: seq<Name>) {
    (forall k | k in ents :: k in c.cached) && Distinct(ents)
  }

  lemma {:induction false} PruneStep(g: Config, c: Cache, ents: seq<Name>)
    requires Prunable(c, ents) && ents != [] && c.bytes > Cap(g)
    ensures Prunable(Drop(g, c, ents[0]), ents[1..])
    ensures Prune(g, c, ents) == Prune(g, Drop(g, c, ents[0]), ents[1..])
  {
  }

  predicate Distinct<T(==)>(s: seq<T>) {
    forall i, j | 0 <= i < j < |s| :: s[i] != s[j]
  }

  // ----- what they do

  function KeyOf(g: Config, id: Id): Name {
    CacheKey(g.sum, id.origin, id.epoch)
  }

  /** The caches differ at most in what they hold of the proof, ready or not. */
  ghost predicate SameElsewhere(g: Config, c: Cache, d: Cache, id: Id) {
    && (forall k | k != KeyOf(g, id) ::
          (k in d.cached <==> k in c.cached) && (k in c.cached ==> d.cached[k] == c.cached[k]))
    && forall o, e: Epoch | Id(o, e) != id :: e in ReadyOf(d.ready, o) <==> e in ReadyOf(c.ready, o)
  }

  /** A fetch goes on exactly when its proof is neither held nor in flight and the bytes held are below
      the limit set, ten gigabytes if none is; the proof is then in flight, and nothing else changes. */
  lemma {:induction false} AdmitsExactly(g: Config, c: Cache, id: Id)
    ensures var k, d := KeyOf(g, id), Admit(g, c, id);
            && (Refuses(g, c, k) <==>
                || k in c.cached || k in c.inWork
                || c.bytes >= if g.maxBytes > 0 then g.maxBytes else 10 * 1024 * 1024 * 1024)
            && d.cached == c.cached && d.ready == c.ready && d.bytes == c.bytes
            && forall q :: q in d.inWork <==> q in c.inWork || (q == k && !Refuses(g, c, k))
  {
  }

  /** Storing a download: the proof is held with its size, its epoch is ready, and its size counted. */
  lemma {:induction false} StoreDelivers(g: Config, c: Cache, id: Id, n: nat)
    ensures var k, d := KeyOf(g, id), Store(g, c, id, n);
            && k in d.cached && d.cached[k] == n && id.origin in d.ready && id.epoch in d.ready[id.origin]
            && d.bytes == c.bytes + n && d.inWork == c.inWork && SameElsewhere(g, c, d, id)
  {
  }

  /** Releasing a proof: if it was held, it no longer is, its epoch is not ready, and its size is not
      counted; if not, nothing changes. */
  lemma {:induction false} ReleaseForgets(g: Config, c: Cache, id: Id)
    ensures var k, d := KeyOf(g, id), Release(g, c, id);
            && k !in d.cached && d.inWork == c.inWork && SameElsewhere(g, c, d, id)
            && (k in c.cached ==> id.epoch !in ReadyOf(d.ready, id.origin) && d.bytes == c.bytes - c.cached[k])
            && (k !in c.cached ==> d == c)
  {
  }

  lemma {:induction false} ClearForgets(g: Config, c: Cache, id: Id)
    ensures var d := Clear(g, c, id);
            && d.cached == c.cached && d.ready == c.ready && d.bytes == c.bytes
            && forall q :: q in d.inWork <==> q in c.inWork && q != KeyOf(g, id)
  {
  }

  // ----- what they keep

  /** Every origin in the configuration has ready exactly the epochs whose proofs are cached. */
  ghost predicate Agrees(g: Config, c: Cache) {
    forall o, e: Epoch | o in g.origins :: e in ReadyOf(c.ready, o) <==> CacheKey(g.sum, o, e) in c.cached
  }

  ghost predicate AllCanonical(g: Config, c: Cache) {
    forall k | k in c.cached :: Canonical(g.sum, g.origins, k)
  }

  ghost predicate Valid(g: Config, c: Cache) {
    c.bytes == Total(c.cached) && Agrees(g, c) && AllCanonical(g, c)
  }

  lemma {:induction false} StoreKeeps(g: Config, c: Cache, used: set<Origin>, id: Id, n: nat)
    requires Valid(g, c) && Apart(g.sum, g.origins, used) && id.origin in used
    requires CacheKey(g.sum, id.origin, id.epoch) !in c.cached
    ensures Valid(g, Store(g, c, id, n))
  {
    var k, d := CacheKey(g.sum, id.origin, id.epoch), Store(g, c, id, n);
    TotalWith(c.cached, k, n);
    KeySplits(g.sum, g.origins, used, id.origin, id.epoch);
    forall o, e: Epoch | o in g.origins
      ensures e in ReadyOf(d.ready, o) <==> CacheKey(g.sum, o, e) in d.cached
    {
      assert e in ReadyOf(c.ready, o) <==> CacheKey(g.sum, o, e) in c.cached;
      if CacheKey(g.sum, o, e) == k { KeysDiffer(g.sum, g.origins, used, Id(o, e), id); }
    }
  }

  lemma {:induction false} DropKeeps(g: Config, c: Cache, used: set<Origin>, k: Name)
    requires Valid(g, c) && Apart(g.sum, g.origins, used) && k in c.cached
    ensures Valid(g, Drop(g, c, k))
  {
    var d := Drop(g, c, k);
    TotalWithout(c.cached, k);
    forall o, e: Epoch | o in g.origins
      ensures e in ReadyOf(d.ready, o) <==> CacheKey(g.sum, o, e) in d.cached
    {
      assert e in ReadyOf(c.ready, o) <==> CacheKey(g.sum, o, e) in c.cached;
      KeySplits(g.sum, g.origins, used, o, e);
      assert Canonical(g.sum, g.origins, k);
    }
  }

  lemma {:induction false} ReleaseKeeps(g: Config, c: Cache, used: set<Origin>, id: Id)
    requires Valid(g, c) && Apart(g.sum, g.origins, used) && id.origin in used
    ensures Valid(g, Release(g, c, id))
  {
    var k, d := CacheKey(g.sum, id.origin, id.epoch), Release(g, c, id);
    if k in c.cached {
      TotalWithout(c.cached, k);
      forall o, e: Epoch | o in g.origins
        ensures e in ReadyOf(d.ready, o) <==> CacheKey(g.sum, o, e) in d.cached
      {
        assert e in ReadyOf(c.ready, o) <==> CacheKey(g.sum, o, e) in c.cached;
        if CacheKey(g.sum, o, e) == k { KeysDiffer(g.sum, g.origins, used, Id(o, e), id); }
      }
    }
  }

  /** Prune keeps all that; it drops oldest first and no more than it must; afterwards the cache is
      within its cap or everything it could stat is gone. */
  lemma {:induction false} PruneKeeps(g: Config, c: Cache, used: set<Origin>, ents: seq<Name>)
    requires Valid(g, c) && Apart(g.sum, g.origins, used)
    requires Prunable(c, ents)
    ensures Valid(g, Prune(g, c, ents))
    ensures Prune(g, c, ents).inWork == c.inWork
    ensures exists n :: PruneDrops(g, c, ents, n)
    decreases |ents|
  {
    if c.bytes <= Cap(g) || ents == [] {
      assert c.cached - Names(ents[..0]) == c.cached;
      assert PruneDrops(g, c, ents, 0);
    } else {
      var d, rest := Drop(g, c, ents[0]), ents[1..];
      DropKeeps(g, c, used, ents[0]);
      PruneKeeps(g, d, used, rest);
      var n :| PruneDrops(g, d, rest, n);
      PruneDropsMore(g, c, ents, n);
    }
  }

  /** When it is given every proof held, it leaves no more than the limit set, ten gigabytes if none
      is. */
  lemma {:induction false} PruneFits(g: Config, c: Cache, used: set<Origin>, ents: seq<Name>)
    requires Valid(g, c) && Apart(g.sum, g.origins, used) && Prunable(c, ents) && forall k | k in c.cached :: k in ents
    ensures Prune(g, c, ents).bytes <= if g.maxBytes > 0 then g.maxBytes else 10 * 1024 * 1024 * 1024
  {
    PruneKeeps(g, c, used, ents);
    var n :| PruneDrops(g, c, ents, n);
    if n == |ents| {
      assert ents[..n] == ents;
      assert Prune(g, c, ents).cached == map[];
    }
  }

  /** Agreement is for configured origins only: what Prune drops for another stays ready, though
      nothing of it is held. */
  lemma {:induction false} UnconfiguredStaysReady(g: Config, c: Cache, used: set<Origin>, id: Id)
    requires Apart(g.sum, g.origins, used) && id.origin in used && id.origin !in g.origins
    requires CacheKey(g.sum, id.origin, id.epoch) in c.cached && id.epoch in ReadyOf(c.ready, id.origin)
    ensures var d := Drop(g, c, CacheKey(g.sum, id.origin, id.epoch));
            id.epoch in ReadyOf(d.ready, id.origin) && CacheKey(g.sum, id.origin, id.epoch) !in d.cached
  {
    KeySplits(g.sum, g.origins, used, id.origin, id.epoch);
  }

  function Names(s: seq<Name>): set<Name> {
    set k | k in s
  }

  /** Prune drops exactly the first n: what is left fits or n is all of them, and one fewer would
      not have fitted. */
  ghost predicate PruneDrops(g: Config, c: Cache, ents: seq<Name>, n: int)
    requires Prunable(c, ents)
  {
    && 0 <= n <= |ents|
    && Prune(g, c, ents).cached == c.cached - Names(ents[..n])
    && (Prune(g, c, ents).bytes <= Cap(g) || n == |ents|)
    && (n > 0 ==> Prune(g, c, ents).bytes + c.cached[ents[n - 1]] > Cap(g))
  }

  lemma {:induction false} PruneDropsMore(g: Config, c: Cache, ents: seq<Name>, n: int)
    requires Prunable(c, ents)
    requires c.bytes > Cap(g) && ents != [] && PruneDrops(g, Drop(g, c, ents[0]), ents[1..], n)
    ensures PruneDrops(g, c, ents, n + 1)
  {
    var d, rest := Drop(g, c, ents[0]), ents[1..];
    assert ents[..n + 1] == [ents[0]] + rest[..n];
    assert c.cached - Names(ents[..n + 1]) == d.cached - Names(rest[..n]);
    if n == 0 {
      assert d.cached - Names(rest[..0]) == d.cached;
      assert Prune(g, d, rest).bytes == d.bytes by { PruneNothing(g, d, rest); }
    } else {
      assert rest[n - 1] == ents[n];
    }
  }

  lemma {:induction false} PruneNothing(g: Config, c: Cache, ents: seq<Name>)
    requires Prunable(c, ents)
    requires Prune(g, c, ents).cached == c.cached
    ensures Prune(g, c, ents).bytes == c.bytes
  {
    if c.bytes > Cap(g) && ents != [] { PruneShrinks(g, Drop(g, c, ents[0]), ents[1..]); }
  }

  lemma {:induction false} PruneShrinks(g: Config, c: Cache, ents: seq<Name>)
    requires Prunable(c, ents)
    ensures Prune(g, c, ents).cached.Keys <= c.cached.Keys
    decreases |ents|
  {
    if c.bytes > Cap(g) && ents != [] { PruneShrinks(g, Drop(g, c, ents[0]), ents[1..]); }
  }

  // ----- init: adopting what a previous run left

  datatype File = File(base: Name, size: nat)

  function Adopt(g: Config, c: Cache, f: File): Cache {
    var id := SplitKey(g.sum, g.origins, f.base);
    c.(cached := c.cached[f.base := f.size], bytes := c.bytes + f.size,
       ready := if id.Some? then MarkReady(c.ready, id.value) else c.ready)
  }

  function AdoptAll(g: Config, files: seq<File>): Cache {
    if files == [] then Cache(map[], map[], 0, {}) else Adopt(g, AdoptAll(g, files[..|files| - 1]), files[|files| - 1])
  }

  /** The files of one directory: no two of a name. */
  predicate DistinctFiles(files: seq<File>) {
    forall i, j | 0 <= i < j < |files| :: files[i].base != files[j].base
  }

  lemma {:induction false} AdoptHolds(g: Config, files: seq<File>, k: Name, id: Id)
    ensures k in AdoptAll(g, files).cached <==> exists i :: 0 <= i < |files| && files[i].base == k
    ensures id.epoch in ReadyOf(AdoptAll(g, files).ready, id.origin)
            <==> exists i :: 0 <= i < |files| && SplitKey(g.sum, g.origins, files[i].base) == Some(id)
    decreases |files|
  {
    if files != [] {
      var n := |files| - 1;
      var init, last := files[..n], files[n];
      AdoptHolds(g, init, k, id);
      assert forall i | 0 <= i < n :: init[i] == files[i];
    }
  }

  /** The size of the last file of a name, 0 if there is none. */
  function SizeOf(files: seq<File>, k: Name): nat {
    if files == [] then 0
    else if files[|files| - 1].base == k then files[|files| - 1].size
    else SizeOf(files[..|files| - 1], k)
  }

  /** The sizes of the files that a later one of their name, in another directory, displaces. */
  function Displaced(files: seq<File>): nat {
    if files == [] then 0
    else Displaced(files[..|files| - 1]) + SizeOf(files[..|files| - 1], files[|files| - 1].base)
  }

  lemma {:induction false} AdoptSizes(g: Config, files: seq<File>, k: Name)
    ensures var m := AdoptAll(g, files).cached; SizeOf(files, k) == if k in m then m[k] else 0
    decreases |files|
  {
    if files != [] { AdoptSizes(g, files[..|files| - 1], k); }
  }

  lemma {:induction false} TotalOver(m: map<Name, nat>, k: Name, n: nat)
    ensures Total(m[k := n]) == Total(m) + n - (if k in m then m[k] else 0)
  {
    TotalWith(m - {k}, k, n);
    assert (m - {k})[k := n] == m[k := n];
    if k in m { TotalWithout(m, k); } else { assert m - {k} == m; }
  }

  /** The byte count adoption arrives at is the sum of the cached sizes and of those displaced. */
  lemma {:induction false} AdoptTotals(g: Config, files: seq<File>)
    ensures AdoptAll(g, files).bytes == Total(AdoptAll(g, files).cached) + Displaced(files)
    decreases |files|
  {
    if files != [] {
      var n := |files| - 1;
      AdoptTotals(g, files[..n]);
      AdoptSizes(g, files[..n], files[n].base);
      TotalOver(AdoptAll(g, files[..n]).cached, files[n].base, files[n].size);
    }
  }

  lemma {:induction false} NothingOf(files: seq<File>, k: Name)
    requires Displaced(files) == 0
    ensures SizeOf(files, k) == 0 <==> forall i | 0 <= i < |files| && files[i].base == k :: files[i].size == 0
    decreases |files|
  {
    if files != [] {
      var n := |files| - 1;
      NothingOf(files[..n], k);
      assert forall i | 0 <= i < n :: files[..n][i] == files[i];
    }
  }

  predicate OnlyEmptyRepeat(files: seq<File>) {
    forall i, j | 0 <= i < j < |files| && files[i].base == files[j].base :: files[i].size == 0
  }

  /** So it is exact if and only if every file that another of its name follows is empty. */
  lemma {:induction false} AdoptIsExact(g: Config, files: seq<File>)
    ensures AdoptAll(g, files).bytes == Total(AdoptAll(g, files).cached) <==> OnlyEmptyRepeat(files)
  {
    AdoptTotals(g, files);
    NothingDisplaced(files);
  }

  lemma {:induction false} NothingDisplaced(files: seq<File>)
    ensures Displaced(files) == 0 <==> OnlyEmptyRepeat(files)
    decreases |files|
  {
    if files != [] {
      var n := |files| - 1;
      NothingDisplaced(files[..n]);
      if Displaced(files[..n]) == 0 { NothingOf(files[..n], files[n].base); }
      assert forall i | 0 <= i < n :: files[..n][i] == files[i];
    }
  }

  /** What adoption gets right, exactly: ready agrees with cached if and only if every proof whose
      name splits is there under its canonical name too. */
  lemma {:induction false} AdoptAgreesExactly(g: Config, used: set<Origin>, files: seq<File>)
    requires Apart(g.sum, g.origins, used)
    ensures Agrees(g, AdoptAll(g, files)) <==>
            forall i | 0 <= i < |files| && SplitKey(g.sum, g.origins, files[i].base).Some? ::
              var id := SplitKey(g.sum, g.origins, files[i].base).value;
              exists j :: 0 <= j < |files| && files[j].base == CacheKey(g.sum, id.origin, id.epoch)
  {
    var c := AdoptAll(g, files);
    if Agrees(g, c) {
      forall i | 0 <= i < |files| && SplitKey(g.sum, g.origins, files[i].base).Some?
        ensures var id := SplitKey(g.sum, g.origins, files[i].base).value;
                exists j :: 0 <= j < |files| && files[j].base == CacheKey(g.sum, id.origin, id.epoch)
      {
        var id := SplitKey(g.sum, g.origins, files[i].base).value;
        ByHashFinds(g.sum, g.origins, files[i].base.prefix);
        AdoptHolds(g, files, CacheKey(g.sum, id.origin, id.epoch), id);
      }
    }
    if forall i | 0 <= i < |files| && SplitKey(g.sum, g.origins, files[i].base).Some? ::
         var id := SplitKey(g.sum, g.origins, files[i].base).value;
         exists j :: 0 <= j < |files| && files[j].base == CacheKey(g.sum, id.origin, id.epoch)
    {
      forall o, e: Epoch | o in g.origins
        ensures e in ReadyOf(c.ready, o) <==> CacheKey(g.sum, o, e) in c.cached
      {
        AdoptHolds(g, files, CacheKey(g.sum, o, e), Id(o, e));
        KeySplits(g.sum, g.origins, used, o, e);
      }
    }
  }

  // ----- the prefetcher

  class Prefetcher {
    const g: Config
    var cached: map<Name, nat>
    var ready: map<Origin, set<Epoch>>
    var bytes: int
    var inWork: set<Name>

    function State(): Cache
      reads this
    {
      Cache(cached, ready, bytes, inWork)
    }

    /** init, given the files found. */
    constructor (g: Config, files: seq<File>)
      ensures this.g == g && State() == AdoptAll(g, files)
    {
      this.g := g;
      cached, ready, bytes, inWork := map[], map[], 0, {};
      new;
      assert files[..0] == [];
      for i := 0 to |files|
        invariant State() == AdoptAll(g, files[..i])
      {
        assert files[..i + 1][..i] == files[..i];
        cached := cached[files[i].base := files[i].size];
        bytes := bytes + files[i].size;
        var id := SplitKey(g.sum, g.origins, files[i].base);
        if id.Some? {
          Mark(id.value);
        }
      }
      assert files[..|files|] == files;
    }

    method Mark(id: Id)
      modifies this`ready
      ensures ready == MarkReady(old(ready), id)
    {
      var m: set<Epoch> := if id.origin in ready then ready[id.origin] else {};
      ready := ready[id.origin := m + {id.epoch}];
    }

    method Unmark(id: Id)
      modifies this`ready
      ensures ready == UnmarkReady(old(ready), id)
    {
      if id.origin in ready {
        ready := ready[id.origin := ready[id.origin] - {id.epoch}];
      }
    }

    /** Fetch up to its first unlock; go says that it goes on to download. */
    method FetchEnter(id: Id) returns (go: bool)
      modifies this`inWork
      ensures State() == Admit(g, old(State()), id)
      ensures go == !Refuses(g, old(State()), CacheKey(g.sum, id.origin, id.epoch))
    {
      var k := CacheKey(g.sum, id.origin, id.epoch);
      if k in cached || k in inWork || bytes >= Cap(g) {
        return false;
      }
      inWork := inWork + {k};
      return true;
    }

    /** Fetch's section after the download has its name. */
    method FetchStore(id: Id, n: nat)
      modifies this`cached, this`ready, this`bytes
      ensures State() == Store(g, old(State()), id, n)
    {
      cached := cached[CacheKey(g.sum, id.origin, id.epoch) := n];
      Mark(id);
      bytes := bytes + n;
    }

    /** Fetch's deferred section. */
    method FetchLeave(id: Id)
      modifies this`inWork
      ensures State() == Clear(g, old(State()), id)
    {
      inWork := inWork - {CacheKey(g.sum, id.origin, id.epoch)};
    }

    method ReleaseProof(id: Id)
      modifies this`cached, this`ready, this`bytes
      ensures State() == Release(g, old(State()), id)
    {
      var k := CacheKey(g.sum, id.origin, id.epoch);
      if k in cached {
        bytes := bytes - cached[k];
        cached := cached - {k};
        Unmark(id);
      }
    }

    method DropProof(k: Name)
      requires k in cached
      modifies this`cached, this`ready, this`bytes
      ensures State() == Drop(g, old(State()), k)
    {
      bytes := bytes - cached[k];
      cached := cached - {k};
      var id := SplitKey(g.sum, g.origins, k);
      if id.Some? {
        Unmark(id.value);
      }
    }

    /** Prune, given the proofs it could stat, sorted by age. */
    method PruneProofs(ents: seq<Name>)
      requires Prunable(State(), ents)
      modifies this`cached, this`ready, this`bytes
      ensures State() == Prune(g, old(State()), ents)
    {
      if bytes <= Cap(g) {
        return;
      }
      assert ents[0..] == ents;
      for i := 0 to |ents|
        invariant Prunable(State(), ents[i..])
        invariant Prune(g, State(), ents[i..]) == Prune(g, old(State()), ents)
      {
        if bytes <= Cap(g) {
          return;
        }
        PruneStep(g, State(), ents[i..]);
        assert ents[i..][1..] == ents[i + 1..];
        DropProof(ents[i]);
      }
    }

    /** Ready: the lowest run of held epochs at or after one, as far as it goes without a gap, but
        at most n long. Over a valid cache every one of them is cached. */
    method Ready(o: Origin, after: int, n: int) returns (first: int, last: int, ok: bool)
      ensures ok <==> n >= 1 && exists e :: e in ReadyOf(ready, o) && e >= after
      ensures ok ==> after <= first <= last && forall e | e in ReadyOf(ready, o) && e >= after :: first <= e
      ensures ok ==> forall e | first <= e <= last :: e in ReadyOf(ready, o)
      ensures ok ==> last - first + 1 <= n && (last - first + 1 < n ==> last + 1 !in ReadyOf(ready, o))
      ensures ok && Agrees(g, State()) && o in g.origins ==>
                forall e: Epoch | first <= e <= last :: CacheKey(g.sum, o, e) in cached
    {
      if n < 1 {
        return 0, 0, false;
      }
      var m: set<Epoch> := if o in ready then ready[o] else {};
      var rest := m;
      first := -1;
      while rest != {}
        invariant rest <= m && (first < 0 || (first in m && after <= first))
        invariant forall e: Epoch | e in m && e >= after :: e in rest || 0 <= first <= e
        decreases |rest|
      {
        var e: Epoch :| e in rest;
        rest := rest - {e};
        if e >= after && (first < 0 || e < first) {
          first := e;
        }
      }
      if first < 0 {
        return 0, 0, false;
      }
      last := first;
      while last + 1 in m && last - first + 1 < n
        invariant first <= last && last - first + 1 <= n
        invariant forall e | first <= e <= last :: e in m
        decreases n - (last - first)
      {
        last := last + 1;
      }
      assert m == ReadyOf(ready, o) && first in m;
      return first, last, true;
    }

    /** Path: whether the proof is held; the path is then its name in the directory. */
    method Path(id: Id) returns (k: Option<Name>)
      ensures k.Some? <==> CacheKey(g.sum, id.origin, id.epoch) in cached
      ensures k.Some? ==> k.value == CacheKey(g.sum, id.origin, id.epoch)
    {
      var key := CacheKey(g.sum, id.origin, id.epoch);
      return if key in cached then Some(key) else None;
    }
  }
}
