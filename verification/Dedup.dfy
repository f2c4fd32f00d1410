/** The deduplication loop of one job, seen by hash: a statement-level machine that can be cut off
    anywhere, its item-level meaning, and crash-restart convergence. */
module Dedup {
  import opened Wrappers
  import opened Questions
  import opened Repository

  // The part of a row that its creation fixes: verification rewrites the rest, and tags may be lost when
  // the creating run dies among its tag statements.
  function Lasting(r: Row): Row {
    r.(answers := [], confidence := 0.0, explanation := "", tags := {})
  }

  // What two runs are compared by: the lasting part of every question, and the links, all by hash.
  datatype View = View(known: Known, links: set<(SessionId, ImageId, Hash)>)

  // One extracted question, as the row it would be created with.
  type Item = Row

  type Known = map<Hash, Row>

  datatype Job = Job(metric: Metric, session: SessionId, image: ImageId)
  {
    function Key(h: Hash): (SessionId, ImageId, Hash) {
      (session, image, h)
    }
  }

  predicate Near(m: Metric, known: Known, v: Vec, h: Hash) {
    h in known && known[h].embedding.Some? && m.distance(known[h].embedding.value, v) <= m.maxDistance
  }

  predicate NoFarther(m: Metric, known: Known, v: Vec, h: Hash, k: Hash)
    requires Near(m, known, v, h) && Near(m, known, v, k)
  {
    var x, y := m.distance(known[h].embedding.value, v), m.distance(known[k].embedding.value, v);
    x < y || (x == y && h <= k)
  }

  ghost predicate NearestHash(m: Metric, known: Known, v: Vec, h: Hash) {
    Near(m, known, v, h) && forall k :: Near(m, known, v, k) ==> NoFarther(m, known, v, h, k)
  }

  // The row found by exact hash or, failing that, by embedding.
  ghost predicate Finds(m: Metric, known: Known, it: Item, h: Hash) {
    if it.hash in known then h == it.hash
    else it.embedding.Some? && NearestHash(m, known, it.embedding.value, h)
  }

  lemma {:induction false} NearestHashExists(m: Metric, known: Known, v: Vec, hs: set<Hash>) returns (h: Hash)
    requires hs != {} && forall k :: k in hs ==> Near(m, known, v, k)
    ensures h in hs && Near(m, known, v, h)
    ensures forall k :: k in hs ==> NoFarther(m, known, v, h, k)
    decreases hs
  {
    var x :| x in hs;
    h := x;
    if hs != {x} {
      assert forall k :: k in hs ==> k == x || k in hs - {x};
      var y := NearestHashExists(m, known, v, hs - {x});
      if !NoFarther(m, known, v, x, y) {
        h := y;
      }
    }
  }

  // The loop creates a row exactly when no stored hash equals the item's and no stored embedding
  // lies within the threshold.
  lemma {:induction false} FindsIff(m: Metric, known: Known, it: Item)
    ensures (exists h :: Finds(m, known, it, h)) <==>
            it.hash in known || (it.embedding.Some? && exists h :: Near(m, known, it.embedding.value, h))
  {
    if it.hash in known {
      assert Finds(m, known, it, it.hash);
    } else if it.embedding.Some? {
      var v := it.embedding.value;
      if k :| Near(m, known, v, k) {
        var hs := set h | h in known && Near(m, known, v, h);
        assert k in hs;
        var h := NearestHashExists(m, known, v, hs);
        assert forall j :: Near(m, known, v, j) ==> j in hs;
        assert Finds(m, known, it, h);
      }
    }
  }

  ghost function Found(m: Metric, known: Known, it: Item): (r: Option<Hash>)
    ensures r.Some? ==> Finds(m, known, it, r.value) && r.value in known
    ensures r.None? ==> forall h :: !Finds(m, known, it, h)
  {
    if h :| Finds(m, known, it, h) then Some(h) else None
  }

  lemma {:induction false} FoundNone(m: Metric, known: Known, it: Item)
    requires it.hash !in known && (it.embedding.Some? ==> forall h :: !Near(m, known, it.embedding.value, h))
    ensures Found(m, known, it).None?
  {
  }

  // The question the item ends up linked to.
  ghost function Target(m: Metric, known: Known, it: Item): Hash {
    match Found(m, known, it)
    case Some(h) => h
    case None => it.hash
  }

  ghost function DoItem(j: Job, s: View, it: Item): View {
    View(if Found(j.metric, s.known, it).Some? then s.known else s.known[it.hash := it],
         s.links + {j.Key(Target(j.metric, s.known, it))})
  }

  lemma {:induction false} ItemFound(j: Job, s: View, it: Item, h: Hash)
    requires Found(j.metric, s.known, it) == Some(h)
    ensures DoItem(j, s, it) == View(s.known, s.links + {j.Key(h)})
  {
  }

  lemma {:induction false} ItemCreated(j: Job, s: View, it: Item)
    requires Found(j.metric, s.known, it).None?
    ensures DoItem(j, s, it) == View(s.known[it.hash := it], s.links + {j.Key(it.hash)})
  {
  }

  // The store after the first n items.
  ghost function Run(j: Job, s: View, items: seq<Item>, n: nat): View
    requires n <= |items|
  {
    if n == 0 then s else DoItem(j, Run(j, s, items, n - 1), items[n - 1])
  }

  ghost function FullRun(j: Job, s: View, items: seq<Item>): View {
    Run(j, s, items, |items|)
  }

  // Each store is the previous one after one more item.
  ghost predicate Chain(j: Job, views: seq<View>, items: seq<Item>) {
    |views| == |items| + 1 && forall n :: 0 <= n < |items| ==> views[n + 1] == DoItem(j, views[n], items[n])
  }

  ghost function Runs(j: Job, s: View, items: seq<Item>): (views: seq<View>)
    ensures |views| == |items| + 1 && views[0] == s && views[|items|] == FullRun(j, s, items)
    ensures Chain(j, views, items)
  {
    seq(|items| + 1, n requires 0 <= n <= |items| => Run(j, s, items, n))
  }

  /* ---- the statement-level machine ---- */

  datatype Pc = AtExact | AtSemantic | AtCreate | AtLink(target: Hash)

  datatype Machine = Machine(store: View, next: nat, pc: Pc)

  ghost function Step(j: Job, items: seq<Item>, c: Machine): Machine {
    if c.next >= |items| then c
    else
      var it := items[c.next];
      match c.pc
      case AtExact =>
        if it.hash in c.store.known then c.(pc := AtLink(it.hash))
        else if it.embedding.Some? then c.(pc := AtSemantic)
        else c.(pc := AtCreate)
      case AtSemantic =>
        (match Found(j.metric, c.store.known, it)
         case Some(h) => c.(pc := AtLink(h))
         case None => c.(pc := AtCreate))
      case AtCreate =>
        c.(store := c.store.(known := c.store.known[it.hash := it]), pc := AtLink(it.hash))
      case AtLink(h) =>
        Machine(c.store.(links := c.store.links + {j.Key(h)}), c.next + 1, AtExact)
  }

  ghost function Steps(j: Job, items: seq<Item>, c: Machine, n: nat): Machine {
    if n == 0 then c else Step(j, items, Steps(j, items, c, n - 1))
  }

  // The store a run leaves behind when it is cut off after n statements.
  ghost function CutOff(j: Job, s: View, items: seq<Item>, n: nat): View {
    Steps(j, items, Machine(s, 0, AtExact), n).store
  }

  ghost predicate Tracks(j: Job, s: View, items: seq<Item>, c: Machine) {
    && c.next <= |items|
    && (c.next == |items| ==> c.pc == AtExact)
    && (c.pc == AtExact ==> c.store == Run(j, s, items, c.next))
    && (c.next < |items| ==>
      var here := Run(j, s, items, c.next);
      var it := items[c.next];
      && c.store.links == here.links
      && (c.pc == AtSemantic ==> c.store == here && it.hash !in here.known && it.embedding.Some?)
      && (c.pc == AtCreate ==> c.store == here && Found(j.metric, here.known, it).None?)
      && (c.pc.AtLink? ==>
        && c.store.known == Run(j, s, items, c.next + 1).known
        && c.pc.target == Target(j.metric, here.known, it)))
  }

  lemma {:induction false} StepTracks(j: Job, s: View, items: seq<Item>, c: Machine)
    requires Tracks(j, s, items, c)
    ensures Tracks(j, s, items, Step(j, items, c))
  {
    if c.next < |items| {
      FindsIff(j.metric, c.store.known, items[c.next]);
    }
  }

  lemma {:induction false} StepsTrack(j: Job, s: View, items: seq<Item>, n: nat)
    ensures Tracks(j, s, items, Steps(j, items, Machine(s, 0, AtExact), n))
  {
    if n > 0 {
      StepsTrack(j, s, items, n - 1);
      StepTracks(j, s, items, Steps(j, items, Machine(s, 0, AtExact), n - 1));
    }
  }

  function Progress(c: Machine): nat {
    4 * c.next + match c.pc
      case AtExact => 0
      case AtSemantic => 1
      case AtCreate => 2
      case AtLink(_) => 3
  }

  lemma {:induction false} StepsProgress(j: Job, items: seq<Item>, s: View, n: nat)
    ensures var c := Steps(j, items, Machine(s, 0, AtExact), n);
      c.next >= |items| || Progress(c) >= n
  {
    if n > 0 {
      StepsProgress(j, items, s, n - 1);
    }
  }

  // Left alone, the machine finishes with the item-level result.
  lemma {:induction false} MachineRefinesRun(j: Job, s: View, items: seq<Item>, n: nat)
    requires n >= 4 * |items|
    ensures CutOff(j, s, items, n) == FullRun(j, s, items)
  {
    StepsTrack(j, s, items, n);
    StepsProgress(j, items, s, n);
  }

  /* ---- rows and targets on their own: links never influence them ---- */

  ghost function RowsAt(m: Metric, known: Known, items: seq<Item>, n: nat): Known
    requires n <= |items|
  {
    if n == 0 then known
    else
      var prev := RowsAt(m, known, items, n - 1);
      if Found(m, prev, items[n - 1]).Some? then prev else prev[items[n - 1].hash := items[n - 1]]
  }

  ghost function TargetAt(m: Metric, known: Known, items: seq<Item>, i: nat): Hash
    requires i < |items|
  {
    Target(m, RowsAt(m, known, items, i), items[i])
  }

  ghost predicate Links(m: Metric, known: Known, items: seq<Item>, n: nat, h: Hash)
    requires n <= |items|
  {
    exists i :: 0 <= i < n && TargetAt(m, known, items, i) == h
  }

  lemma {:induction false} RunSplits(j: Job, s: View, items: seq<Item>, n: nat)
    requires n <= |items|
    ensures Run(j, s, items, n).known == RowsAt(j.metric, s.known, items, n)
    ensures s.links <= Run(j, s, items, n).links
    ensures forall l :: l in Run(j, s, items, n).links && l !in s.links ==>
      l == j.Key(l.2) && Links(j.metric, s.known, items, n, l.2)
    ensures forall h :: Links(j.metric, s.known, items, n, h) ==> j.Key(h) in Run(j, s, items, n).links
  {
    if n > 0 {
      RunSplits(j, s, items, n - 1);
      var t := TargetAt(j.metric, s.known, items, n - 1);
      assert Run(j, s, items, n).links == Run(j, s, items, n - 1).links + {j.Key(t)};
      assert Links(j.metric, s.known, items, n, t);
      forall h ensures Links(j.metric, s.known, items, n, h) <==>
        Links(j.metric, s.known, items, n - 1, h) || h == t
      {
      }
    }
  }

  /* ---- growth ---- */

  ghost predicate SubKnown(a: Known, b: Known) {
    forall h :: h in a ==> h in b && b[h] == a[h]
  }

  lemma {:induction false} RowsGrow(m: Metric, known: Known, items: seq<Item>, i: nat, n: nat)
    requires i <= n <= |items|
    ensures SubKnown(RowsAt(m, known, items, i), RowsAt(m, known, items, n))
    decreases n
  {
    if i < n {
      RowsGrow(m, known, items, i, n - 1);
      FindsIff(m, RowsAt(m, known, items, n - 1), items[n - 1]);
    }
  }

  // A row that was not there at the start was created by some item, which is linked to it.
  lemma {:induction false} Creator(m: Metric, known: Known, items: seq<Item>, n: nat, h: Hash) returns (c: nat)
    requires n <= |items| && h in RowsAt(m, known, items, n) && h !in known
    ensures c < n && items[c].hash == h && Found(m, RowsAt(m, known, items, c), items[c]).None?
  {
    if h in RowsAt(m, known, items, n - 1) {
      c := Creator(m, known, items, n - 1, h);
    } else {
      c := n - 1;
    }
  }

  // A bigger store with nothing different still has an answer.
  lemma {:induction false} FoundGrows(m: Metric, a: Known, b: Known, it: Item)
    requires SubKnown(a, b) && Found(m, a, it).Some?
    ensures Found(m, b, it).Some?
  {
    FindsIff(m, a, it);
    FindsIff(m, b, it);
    var h := Found(m, a, it).value;
    if it.hash !in a {
      assert Near(m, b, it.embedding.value, h);
    }
  }

  // When the bigger store answers with a row of the smaller one, the smaller one agrees.
  lemma {:induction false} FoundShrinks(m: Metric, a: Known, b: Known, it: Item)
    requires SubKnown(a, b) && Found(m, b, it).Some? && Found(m, b, it).value in a
    ensures Found(m, a, it) == Found(m, b, it)
  {
    var h := Found(m, b, it).value;
    if it.hash !in b {
      var v := it.embedding.value;
      assert forall k :: Near(m, a, v, k) ==> Near(m, b, v, k) && NoFarther(m, b, v, h, k);
      assert Finds(m, a, it, h);
      var k := Found(m, a, it).value;
      assert NoFarther(m, a, v, h, k) && NoFarther(m, a, v, k, h);
    } else {
      assert Finds(m, a, it, h);
    }
  }

  // An item finds a row in every store that grew past its own step.
  lemma {:induction false} FindsLater(m: Metric, known: Known, items: seq<Item>, i: nat, n: nat)
    requires i < n <= |items|
    ensures Found(m, RowsAt(m, known, items, n), items[i]).Some?
  {
    var here, grown := RowsAt(m, known, items, i), RowsAt(m, known, items, i + 1);
    RowsGrow(m, known, items, i + 1, n);
    if Found(m, here, items[i]).None? {
      FindsIff(m, grown, items[i]);
      assert items[i].hash in grown;
    }
    FoundGrows(m, grown, RowsAt(m, known, items, n), items[i]);
  }

  /* ---- crash-restart convergence ---- */

  ghost predicate OldLinksKept(
    j: Job, s: View, items: seq<Item>, links: set<(SessionId, ImageId, Hash)>, k: nat)
    requires k <= |items|
  {
    forall i :: 0 <= i < k && TargetAt(j.metric, s.known, items, i) in s.known ==>
      j.Key(TargetAt(j.metric, s.known, items, i)) in links
  }

  // The store of an interrupted history: its rows are those of some prefix of the uninterrupted
  // run, its links lie between the starting links and the final ones, and no link of that prefix
  // to a pre-existing question is missing.
  ghost predicate Interrupted(j: Job, s: View, items: seq<Item>, t: View, k: nat) {
    && k <= |items|
    && t.known == RowsAt(j.metric, s.known, items, k)
    && s.links <= t.links
    && (forall l :: l in t.links && l !in s.links ==>
      l == j.Key(l.2) && Links(j.metric, s.known, items, |items|, l.2))
    && OldLinksKept(j, s, items, t.links, k)
  }

  function Max(a: nat, b: nat): nat {
    if a < b then b else a
  }

  // Replaying over the rows of a prefix creates nothing; the rest is the uninterrupted run.
  lemma {:induction false} ReplayRows(m: Metric, known: Known, items: seq<Item>, k: nat, n: nat)
    requires k <= |items| && n <= |items|
    ensures RowsAt(m, RowsAt(m, known, items, k), items, n) == RowsAt(m, known, items, Max(k, n))
  {
    if n > 0 {
      ReplayRows(m, known, items, k, n - 1);
      if n <= k {
        FindsLater(m, known, items, n - 1, k);
      }
    }
  }

  // The replay links nothing that the uninterrupted run would not have linked.
  lemma {:induction false} ReplayTarget(m: Metric, known: Known, items: seq<Item>, k: nat, i: nat)
    requires k <= |items| && i < |items|
    ensures Links(m, known, items, |items|, TargetAt(m, RowsAt(m, known, items, k), items, i))
    ensures i >= k ==> TargetAt(m, RowsAt(m, known, items, k), items, i) == TargetAt(m, known, items, i)
  {
    ReplayRows(m, known, items, k, i);
    var h := TargetAt(m, RowsAt(m, known, items, k), items, i);
    if i < k {
      var here, late := RowsAt(m, known, items, i), RowsAt(m, known, items, k);
      FindsLater(m, known, items, i, k);
      RowsGrow(m, known, items, i, k);
      RowsGrow(m, known, items, 0, i);
      assert h in late;
      if h in known {
        FoundShrinks(m, here, late, items[i]);
        assert h == TargetAt(m, known, items, i);
      } else {
        var c := Creator(m, known, items, k, h);
        assert h == TargetAt(m, known, items, c);
      }
    } else {
      assert h == TargetAt(m, known, items, i);
    }
  }

  // A full or partial replay over an interrupted store keeps within the same bounds.
  lemma {:induction false} ReplayInterrupted(
      j: Job, s: View, items: seq<Item>, t: View, k: nat, n: nat, u: View, k': nat)
    requires Interrupted(j, s, items, t, k)
    requires n <= |items| && Max(k, n) <= k' <= |items|
    requires u.known == RowsAt(j.metric, s.known, items, k') && u.links == Run(j, t, items, n).links
    requires k' > Max(k, n) ==>
      k' == n + 1 && Found(j.metric, RowsAt(j.metric, s.known, items, n), items[n]).None?
    ensures Interrupted(j, s, items, u, k')
  {
    var m := j.metric;
    RunSplits(j, t, items, n);
    forall l | l in u.links && l !in s.links
      ensures l == j.Key(l.2) && Links(m, s.known, items, |items|, l.2)
    {
      if l !in t.links {
        var i :| 0 <= i < n && TargetAt(m, t.known, items, i) == l.2;
        ReplayTarget(m, s.known, items, k, i);
      }
    }
    forall i | 0 <= i < k' && TargetAt(m, s.known, items, i) in s.known
      ensures j.Key(TargetAt(m, s.known, items, i)) in u.links
    {
      if i < k {
      } else if i < n {
        ReplayTarget(m, s.known, items, k, i);
        assert Links(m, t.known, items, n, TargetAt(m, t.known, items, i));
      } else {
        RowsGrow(m, s.known, items, 0, n);
        FindsIff(m, RowsAt(m, s.known, items, n), items[n]);
        assert false;
      }
    }
  }

  // Cutting a replay off anywhere leaves an interrupted history again.
  lemma {:induction false} CutOffInterrupted(j: Job, s: View, items: seq<Item>, t: View, k: nat, n: nat)
    returns (k': nat)
    requires Interrupted(j, s, items, t, k)
    ensures Interrupted(j, s, items, CutOff(j, t, items, n), k')
  {
    var c := Steps(j, items, Machine(t, 0, AtExact), n);
    StepsTrack(j, t, items, n);
    RunSplits(j, t, items, c.next);
    ReplayRows(j.metric, s.known, items, k, c.next);
    k' := Max(k, c.next);
    if c.pc.AtLink? {
      RunSplits(j, t, items, c.next + 1);
      ReplayRows(j.metric, s.known, items, k, c.next + 1);
      k' := Max(k, c.next + 1);
      if k' > Max(k, c.next) && Found(j.metric, RowsAt(j.metric, s.known, items, c.next), items[c.next]).Some? {
        k' := Max(k, c.next);
      }
    }
    ReplayInterrupted(j, s, items, t, k, c.next, c.store, k');
  }

  lemma {:induction false} ExactTarget(m: Metric, known: Known, it: Item)
    requires it.hash in known
    ensures Target(m, known, it) == it.hash
  {
    FindsIff(m, known, it);
  }

  // In the replay the creating item finds its row by exact hash, or creates it now.
  lemma {:induction false} CreatorRelinks(m: Metric, known: Known, items: seq<Item>, k: nat, c: nat)
    requires k <= |items| && c < |items| && Found(m, RowsAt(m, known, items, c), items[c]).None?
    ensures TargetAt(m, RowsAt(m, known, items, k), items, c) == items[c].hash
  {
    ReplayRows(m, known, items, k, c);
    if c < k {
      RowsGrow(m, known, items, c + 1, k);
      ExactTarget(m, RowsAt(m, known, items, k), items[c]);
    }
  }

  lemma {:induction false} FullRunRestores(j: Job, s: View, items: seq<Item>, t: View, k: nat)
    requires Interrupted(j, s, items, t, k)
    ensures FullRun(j, t, items) == FullRun(j, s, items)
  {
    var n, m := |items|, j.metric;
    ReplayRows(m, s.known, items, k, n);
    RunSplits(j, s, items, n);
    RunSplits(j, t, items, n);
    ReplayInterrupted(j, s, items, t, k, n, FullRun(j, t, items), n);
    forall l | l in FullRun(j, s, items).links ensures l in FullRun(j, t, items).links {
      if l !in s.links {
        var h := l.2;
        var i :| 0 <= i < n && TargetAt(m, s.known, items, i) == h;
        if h !in s.known {
          RowsGrow(m, s.known, items, i + 1, n);
          var c := Creator(m, s.known, items, n, h);
          CreatorRelinks(m, s.known, items, k, c);
          assert Links(m, t.known, items, n, TargetAt(m, t.known, items, c));
        }
      }
    }
  }

  // Run the loop once per entry of `cuts`, each time from the first item and cut off after that
  // many statements.
  ghost function Crashes(j: Job, s: View, items: seq<Item>, cuts: seq<nat>): View {
    if cuts == [] then s
    else CutOff(j, Crashes(j, s, items, cuts[..|cuts| - 1]), items, cuts[|cuts| - 1])
  }

  lemma {:induction false} CrashesInterrupted(j: Job, s: View, items: seq<Item>, cuts: seq<nat>)
    returns (k: nat)
    ensures Interrupted(j, s, items, Crashes(j, s, items, cuts), k)
  {
    if cuts == [] {
      k := 0;
    } else {
      k := CrashesInterrupted(j, s, items, cuts[..|cuts| - 1]);
      k := CutOffInterrupted(j, s, items, Crashes(j, s, items, cuts[..|cuts| - 1]), k, cuts[|cuts| - 1]);
    }
  }

  // With no other writer, and with the same extraction and embedding results in every run.
  lemma {:induction false} Convergence(j: Job, s: View, items: seq<Item>, cuts: seq<nat>)
    ensures FullRun(j, Crashes(j, s, items, cuts), items) == FullRun(j, s, items)
  {
    var k := CrashesInterrupted(j, s, items, cuts);
    FullRunRestores(j, s, items, Crashes(j, s, items, cuts), k);
  }

  /* ---- coverage and dedup classes ---- */

  // After a full run every item is linked to a stored question that has its hash or whose
  // embedding lies within the threshold.
  lemma {:induction false} Coverage(j: Job, s: View, items: seq<Item>, i: nat) returns (h: Hash)
    requires i < |items|
    ensures j.Key(h) in FullRun(j, s, items).links
    ensures h in FullRun(j, s, items).known
    ensures h == items[i].hash ||
      (items[i].embedding.Some? && Near(j.metric, FullRun(j, s, items).known, items[i].embedding.value, h))
    ensures items[i].embedding.None? ==> h == items[i].hash
  {
    h := TargetAt(j.metric, s.known, items, i);
    RunSplits(j, s, items, |items|);
    assert Links(j.metric, s.known, items, |items|, h);
    RowsGrow(j.metric, s.known, items, i + 1, |items|);
    RowsGrow(j.metric, s.known, items, i, |items|);
    FindsIff(j.metric, RowsAt(j.metric, s.known, items, i), items[i]);
  }
}
