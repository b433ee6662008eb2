/**
 * The mod-list reconciliation of `Options::refreshMods`, after the scan of the
 * mod folders has produced the available mod infos.
 *
 * The user's list is a sequence of (id, active) entries. The available infos
 * come from a `std::map` keyed by id, so they are given here as a sequence in
 * ascending string order. The reconciliation runs in four phases:
 *   1. entries whose mod no longer exists are dropped, and master entries that
 *      follow a non-master entry are moved into a `std::map` of misplaced masters;
 *   2. the misplaced masters are inserted at the front, one at a time, in
 *      ascending key order, so they end up in descending order;
 *   3. every available mod is looked up in the list: new masters go to the front
 *      and new non-masters to the back, both inactive, and the flags of the
 *      listed masters are set so that at most one stays active;
 *   4. when no master is active, a fallback master is activated; when none
 *      exists at all, an exception is raised.
 * `Options.Globals.RefreshMods` runs these phases as loops; this module is
 * their specification and holds what they guarantee.
 */
module ModList {
  import opened Common

  datatype ModEntry = ModEntry(id: string, active: bool)

  /** The part of a `ModInfo` the reconciliation reads. */
  datatype ModInfo = ModInfo(id: string, isMaster: bool)

  // ---------------------------------------------------------------------------
  // The order of `std::string` keys

  /** Lexicographic order on strings, the order in which a `std::map` is iterated. */
  predicate Less(a: string, b: string)
    decreases |a|
  {
    if a == [] then b != []
    else if b == [] then false
    else if a[0] != b[0] then a[0] < b[0]
    else Less(a[1..], b[1..])
  }

  lemma {:induction false} LessIrreflexive(a: string)
    ensures !Less(a, a)
    decreases |a|
  {
    if a != [] {
      LessIrreflexive(a[1..]);
    }
  }

  lemma {:induction false} LessTransitive(a: string, b: string, c: string)
    requires Less(a, b) && Less(b, c)
    ensures Less(a, c)
    decreases |a|
  {
    if a != [] && b != [] && c != [] && a[0] == b[0] && b[0] == c[0] {
      LessTransitive(a[1..], b[1..], c[1..]);
    }
  }

  lemma {:induction false} LessTotal(a: string, b: string)
    ensures a == b || Less(a, b) || Less(b, a)
    decreases |a|
  {
    if a != [] && b != [] && a[0] == b[0] {
      LessTotal(a[1..], b[1..]);
      if a[1..] == b[1..] {
        assert a == [a[0]] + a[1..] && b == [b[0]] + b[1..];
      }
    }
  }

  lemma {:induction false} LessAsymmetric(a: string, b: string)
    requires Less(a, b)
    ensures !Less(b, a)
    decreases |a|
  {
    if a != [] && b != [] && a[0] == b[0] {
      LessAsymmetric(a[1..], b[1..]);
    }
  }

  /** The infos as a `std::map` yields them: strictly ascending ids. */
  predicate IsMapOrder(infos: seq<ModInfo>)
  {
    forall i, j :: 0 <= i < j < |infos| ==> Less(infos[i].id, infos[j].id)
  }

  /** The misplaced masters as a `std::map` holds them: strictly ascending ids. */
  predicate SortedById(c: seq<ModEntry>)
  {
    forall i, j :: 0 <= i < j < |c| ==> Less(c[i].id, c[j].id)
  }

  predicate DistinctInfoIds(infos: seq<ModInfo>)
  {
    forall i, j :: 0 <= i < j < |infos| ==> infos[i].id != infos[j].id
  }

  lemma MapOrderDistinct(infos: seq<ModInfo>)
    requires IsMapOrder(infos)
    ensures DistinctInfoIds(infos)
  {
    forall i, j | 0 <= i < j < |infos|
      ensures infos[i].id != infos[j].id
    {
      LessIrreflexive(infos[i].id);
    }
  }

  // ---------------------------------------------------------------------------
  // Lookups

  predicate HasId(mods: seq<ModEntry>, id: string)
  {
    exists k :: 0 <= k < |mods| && mods[k].id == id
  }

  predicate DistinctIds(mods: seq<ModEntry>)
  {
    forall i, j :: 0 <= i < j < |mods| ==> mods[i].id != mods[j].id
  }

  /** `_modInfos.find(id)`: whether the mod exists and, if so, whether it is a master. */
  function LookupInfo(infos: seq<ModInfo>, id: string): (r: Option<bool>)
    ensures r.None? <==> forall k :: 0 <= k < |infos| ==> infos[k].id != id
    ensures r.Some? ==> exists k :: 0 <= k < |infos| && infos[k].id == id && infos[k].isMaster == r.value
  {
    if infos == [] then None
    else if infos[0].id == id then Some(infos[0].isMaster)
    else
      var r := LookupInfo(infos[1..], id);
      assert r.Some? ==> exists k :: 1 <= k < |infos| && infos[k].id == id && infos[k].isMaster == r.value by {
        if r.Some? {
          var k :| 0 <= k < |infos[1..]| && infos[1..][k].id == id && infos[1..][k].isMaster == r.value;
          assert infos[k + 1] == infos[1..][k];
        }
      }
      r
  }

  /** With distinct ids the lookup finds the info at any position holding the id. */
  lemma LookupAt(infos: seq<ModInfo>, k: int)
    requires DistinctInfoIds(infos)
    requires 0 <= k < |infos|
    ensures LookupInfo(infos, infos[k].id) == Some(infos[k].isMaster)
  {
  }

  predicate Known(infos: seq<ModInfo>, id: string)
  {
    LookupInfo(infos, id).Some?
  }

  predicate IsMaster(infos: seq<ModInfo>, id: string)
  {
    LookupInfo(infos, id) == Some(true)
  }

  predicate AllKnown(infos: seq<ModInfo>, mods: seq<ModEntry>)
  {
    forall e :: e in mods ==> Known(infos, e.id)
  }

  /** No master entry follows a non-master entry. */
  predicate MastersFirst(infos: seq<ModInfo>, mods: seq<ModEntry>)
  {
    forall i, j :: 0 <= i < j < |mods| && IsMaster(infos, mods[j].id) ==> IsMaster(infos, mods[i].id)
  }

  /** The first position of an entry with this id, or -1 (the search loop over `mods`). */
  function FindId(mods: seq<ModEntry>, id: string): (j: int)
    ensures -1 <= j < |mods|
    ensures j == -1 <==> !HasId(mods, id)
    ensures j >= 0 ==> mods[j].id == id && forall k :: 0 <= k < j ==> mods[k].id != id
  {
    if mods == [] then -1
    else if mods[0].id == id then 0
    else
      var r := FindId(mods[1..], id);
      assert HasId(mods[1..], id) ==> HasId(mods, id) by {
        if HasId(mods[1..], id) {
          var k :| 0 <= k < |mods[1..]| && mods[1..][k].id == id;
          assert mods[k + 1].id == id;
        }
      }
      assert HasId(mods, id) ==> HasId(mods[1..], id) by {
        if HasId(mods, id) {
          var k :| 0 <= k < |mods| && mods[k].id == id;
          assert mods[1..][k - 1].id == id;
        }
      }
      if r == -1 then -1 else r + 1
  }

  // ---------------------------------------------------------------------------
  // Phase 1: prune

  /**
   * `corruptedMasters[e.id] = e.active` on a map kept as a sorted sequence:
   * an entry with the same id is replaced, otherwise `e` goes to its sorted place.
   */
  function Put(c: seq<ModEntry>, e: ModEntry): seq<ModEntry>
  {
    if c == [] then [e]
    else if c[0].id == e.id then [e] + c[1..]
    else if Less(e.id, c[0].id) then [e] + c
    else [c[0]] + Put(c[1..], e)
  }

  /** Putting brings in no entry other than `e`. */
  lemma {:induction false} PutSubset(c: seq<ModEntry>, e: ModEntry)
    ensures forall x :: x in Put(c, e) ==> x == e || x in c
  {
    if c != [] && c[0].id != e.id && !Less(e.id, c[0].id) {
      PutSubset(c[1..], e);
      assert Put(c, e) == [c[0]] + Put(c[1..], e);
    }
  }

  /** Putting keeps the map order. */
  lemma {:induction false} PutSorted(c: seq<ModEntry>, e: ModEntry)
    requires SortedById(c)
    ensures SortedById(Put(c, e))
  {
    if c == [] {
    } else if c[0].id == e.id {
      assert Put(c, e) == [e] + c[1..];
    } else if Less(e.id, c[0].id) {
      forall i | 0 <= i < |c| ensures Less(e.id, c[i].id) {
        if i > 0 {
          LessTransitive(e.id, c[0].id, c[i].id);
        }
      }
    } else {
      var r := Put(c[1..], e);
      PutSorted(c[1..], e);
      PutSubset(c[1..], e);
      LessTotal(e.id, c[0].id);
      forall i | 0 <= i < |r| ensures Less(c[0].id, r[i].id) {
        if r[i] != e {
          assert r[i] in r;
          var k :| 0 <= k < |c[1..]| && c[1..][k] == r[i];
          assert c[k + 1] == r[i];
        }
      }
      assert Put(c, e) == [c[0]] + r;
    }
  }

  /** Putting holds `e` under its key and keeps every entry under another key. */
  lemma {:induction false} PutMembers(c: seq<ModEntry>, e: ModEntry)
    requires SortedById(c)
    ensures e in Put(c, e)
    ensures forall x :: x in Put(c, e) ==> x == e || (x in c && x.id != e.id)
    ensures forall x :: x in c && x.id != e.id ==> x in Put(c, e)
  {
    if c == [] {
    } else if c[0].id == e.id {
      forall i | 1 <= i < |c| ensures c[i].id != e.id {
        LessIrreflexive(e.id);
      }
      assert Put(c, e) == [e] + c[1..];
      forall x | x in c && x.id != e.id ensures x in c[1..] {
        var k :| 0 <= k < |c| && c[k] == x;
        assert c[1..][k - 1] == x;
      }
    } else if Less(e.id, c[0].id) {
      forall i | 0 <= i < |c| ensures Less(e.id, c[i].id) {
        if i > 0 {
          LessTransitive(e.id, c[0].id, c[i].id);
        }
      }
      forall x | x in c ensures x.id != e.id {
        LessIrreflexive(e.id);
      }
    } else {
      PutMembers(c[1..], e);
      assert Put(c, e) == [c[0]] + Put(c[1..], e);
      forall x | x in c && x.id != e.id ensures x in Put(c, e) {
        if x != c[0] {
          assert x in c[1..];
        }
      }
    }
  }

  /** Putting keeps the map order, holds `e` under its key and keeps every other entry. */
  lemma PutFacts(c: seq<ModEntry>, e: ModEntry)
    requires SortedById(c)
    ensures SortedById(Put(c, e))
    ensures e in Put(c, e)
    ensures forall x :: x in Put(c, e) ==> x == e || (x in c && x.id != e.id)
    ensures forall x :: x in c && x.id != e.id ==> x in Put(c, e)
    ensures forall x :: x in Put(c, e) && x.id == e.id ==> x == e
  {
    PutSorted(c, e);
    PutMembers(c, e);
  }

  datatype Pruned = Pruned(kept: seq<ModEntry>, corrupted: seq<ModEntry>)

  /**
   * The erase loop over `mods`, with `kept` the entries already passed and
   * `rest` those still to visit.
   */
  function PruneFrom(rest: seq<ModEntry>, infos: seq<ModInfo>, nonMasterFound: bool,
                     kept: seq<ModEntry>, corrupted: seq<ModEntry>): Pruned
    decreases |rest|
  {
    if rest == [] then Pruned(kept, corrupted)
    else
      var e := rest[0];
      match LookupInfo(infos, e.id)
      case None => PruneFrom(rest[1..], infos, nonMasterFound, kept, corrupted)
      case Some(master) =>
        if master && nonMasterFound then PruneFrom(rest[1..], infos, nonMasterFound, kept, Put(corrupted, e))
        else PruneFrom(rest[1..], infos, nonMasterFound || !master, kept + [e], corrupted)
  }

  /** The list the scan phase starts from: misplaced masters in descending id order, then the kept entries. */
  function Start(mods: seq<ModEntry>, infos: seq<ModInfo>): seq<ModEntry>
  {
    var p := PruneFrom(mods, infos, false, [], []);
    Reverse(p.corrupted) + p.kept
  }

  predicate PruneInv(infos: seq<ModInfo>, nonMasterFound: bool, kept: seq<ModEntry>, corrupted: seq<ModEntry>)
  {
    && AllKnown(infos, kept)
    && MastersFirst(infos, kept)
    && (!nonMasterFound ==> forall e :: e in kept ==> IsMaster(infos, e.id))
    && (forall e :: e in corrupted ==> IsMaster(infos, e.id))
    && SortedById(corrupted)
  }

  /** Pruning keeps only existing mods, keeps masters ahead of the rest and moves only masters aside. */
  lemma {:induction false} PruneShape(rest: seq<ModEntry>, infos: seq<ModInfo>, nonMasterFound: bool,
                                      kept: seq<ModEntry>, corrupted: seq<ModEntry>)
    requires PruneInv(infos, nonMasterFound, kept, corrupted)
    ensures var p := PruneFrom(rest, infos, nonMasterFound, kept, corrupted);
      && AllKnown(infos, p.kept)
      && MastersFirst(infos, p.kept)
      && (forall e :: e in p.corrupted ==> IsMaster(infos, e.id))
      && SortedById(p.corrupted)
    decreases |rest|
  {
    if rest != [] {
      var e := rest[0];
      match LookupInfo(infos, e.id)
      case None =>
        PruneShape(rest[1..], infos, nonMasterFound, kept, corrupted);
      case Some(master) =>
        if master && nonMasterFound {
          PutFacts(corrupted, e);
          PruneShape(rest[1..], infos, nonMasterFound, kept, Put(corrupted, e));
        } else {
          var k := kept + [e];
          assert forall x :: x in k ==> x in kept || x == e;
          PruneShape(rest[1..], infos, nonMasterFound || !master, k, corrupted);
        }
    }
  }

  /**
   * Every surviving entry is an entry of the list, and every entry of an existing
   * mod survives under its id.
   */
  lemma {:induction false} PruneOrigin(rest: seq<ModEntry>, infos: seq<ModInfo>, nonMasterFound: bool,
                                       kept: seq<ModEntry>, corrupted: seq<ModEntry>)
    requires SortedById(corrupted)
    ensures var p := PruneFrom(rest, infos, nonMasterFound, kept, corrupted);
      && (forall x :: x in p.kept ==> x in kept || x in rest)
      && (forall x :: x in p.corrupted ==> x in corrupted || x in rest)
      && (forall x :: x in kept ==> x in p.kept)
      && (forall x :: x in corrupted ==> HasId(p.corrupted, x.id))
      && (forall x :: x in rest && Known(infos, x.id) ==> HasId(p.kept, x.id) || HasId(p.corrupted, x.id))
    decreases |rest|
  {
    if rest != [] {
      var e := rest[0];
      assert forall x :: x in rest ==> x == e || x in rest[1..];
      match LookupInfo(infos, e.id)
      case None =>
        PruneOrigin(rest[1..], infos, nonMasterFound, kept, corrupted);
      case Some(master) =>
        if master && nonMasterFound {
          PutFacts(corrupted, e);
          var c := Put(corrupted, e);
          PruneOrigin(rest[1..], infos, nonMasterFound, kept, c);
          var p := PruneFrom(rest[1..], infos, nonMasterFound, kept, c);
          forall x | x in corrupted ensures HasId(p.corrupted, x.id) {
            if x.id == e.id {
              assert e in c;
            } else {
              assert x in c;
            }
          }
        } else {
          PruneOrigin(rest[1..], infos, nonMasterFound || !master, kept + [e], corrupted);
        }
    }
  }

  predicate DisjointIds(a: seq<ModEntry>, b: seq<ModEntry>)
  {
    forall x, y :: x in a && y in b ==> x.id != y.id
  }

  /** With distinct ids in the list, the kept entries and the misplaced masters have distinct ids. */
  lemma {:induction false} PruneDistinct(rest: seq<ModEntry>, infos: seq<ModInfo>, nonMasterFound: bool,
                                         kept: seq<ModEntry>, corrupted: seq<ModEntry>)
    requires SortedById(corrupted)
    requires DistinctIds(rest) && DistinctIds(kept) && DistinctIds(corrupted)
    requires DisjointIds(rest, kept) && DisjointIds(rest, corrupted) && DisjointIds(kept, corrupted)
    ensures var p := PruneFrom(rest, infos, nonMasterFound, kept, corrupted);
      DistinctIds(p.kept) && DistinctIds(p.corrupted) && DisjointIds(p.kept, p.corrupted)
    decreases |rest|
  {
    if rest != [] {
      var e := rest[0];
      var r := rest[1..];
      assert forall x :: x in r ==> x.id != e.id by {
        forall i | 1 <= i < |rest| ensures rest[i].id != e.id {
        }
      }
      assert DistinctIds(r) by {
        forall i, j | 0 <= i < j < |r| ensures r[i].id != r[j].id {
          assert r[i] == rest[i + 1] && r[j] == rest[j + 1];
        }
      }
      match LookupInfo(infos, e.id)
      case None =>
        PruneDistinct(r, infos, nonMasterFound, kept, corrupted);
      case Some(master) =>
        if master && nonMasterFound {
          PutFacts(corrupted, e);
          var c := Put(corrupted, e);
          assert DistinctIds(c) by {
            forall i, j | 0 <= i < j < |c| ensures c[i].id != c[j].id {
              LessIrreflexive(c[i].id);
            }
          }
          PruneDistinct(r, infos, nonMasterFound, kept, c);
        } else {
          var k := kept + [e];
          assert forall x :: x in k ==> x in kept || x == e;
          assert DistinctIds(k) by {
            forall i, j | 0 <= i < j < |k| ensures k[i].id != k[j].id {
              if j == |kept| {
                assert k[i] in kept;
              }
            }
          }
          PruneDistinct(r, infos, nonMasterFound || !master, k, corrupted);
        }
    }
  }

  lemma ReverseMembers<T>(s: seq<T>)
    ensures forall x :: x in Reverse(s) <==> x in s
  {
    forall x | x in s ensures x in Reverse(s) {
      var i :| 0 <= i < |s| && s[i] == x;
      assert Reverse(s)[|s| - 1 - i] == x;
    }
  }

  /** Masters followed by a masters-first list form a masters-first list. */
  lemma MastersFirstConcat(infos: seq<ModInfo>, a: seq<ModEntry>, b: seq<ModEntry>)
    requires forall x :: x in a ==> IsMaster(infos, x.id)
    requires MastersFirst(infos, b)
    ensures MastersFirst(infos, a + b)
  {
    var s := a + b;
    forall i, j | 0 <= i < j < |s| && IsMaster(infos, s[j].id) ensures IsMaster(infos, s[i].id) {
      if i < |a| {
        assert s[i] in a;
      } else {
        assert s[i] == b[i - |a|] && s[j] == b[j - |a|];
      }
    }
  }

  /** Two lists with distinct ids and no id in common concatenate to one with distinct ids. */
  lemma DistinctConcat(a: seq<ModEntry>, b: seq<ModEntry>)
    requires DistinctIds(a) && DistinctIds(b) && DisjointIds(a, b)
    ensures DistinctIds(a + b)
  {
    var s := a + b;
    forall i, j | 0 <= i < j < |s| ensures s[i].id != s[j].id {
      if j < |a| {
        assert s[i] == a[i] && s[j] == a[j];
      } else if i >= |a| {
        assert s[i] == b[i - |a|] && s[j] == b[j - |a|];
      } else {
        assert s[i] in a && s[j] in b;
      }
    }
  }

  lemma DistinctReverse(c: seq<ModEntry>)
    requires DistinctIds(c)
    ensures DistinctIds(Reverse(c))
  {
    var r := Reverse(c);
    forall i, j | 0 <= i < j < |r| ensures r[i].id != r[j].id {
      assert r[i] == c[|c| - 1 - i] && r[j] == c[|c| - 1 - j];
    }
  }

  /** The starting list holds only existing mods, with the masters first. */
  lemma StartShape(mods: seq<ModEntry>, infos: seq<ModInfo>)
    ensures AllKnown(infos, Start(mods, infos))
    ensures MastersFirst(infos, Start(mods, infos))
  {
    var p := PruneFrom(mods, infos, false, [], []);
    var rc := Reverse(p.corrupted);
    PruneShape(mods, infos, false, [], []);
    ReverseMembers(p.corrupted);
    MastersFirstConcat(infos, rc, p.kept);
    assert forall x :: x in rc + p.kept ==> x in rc || x in p.kept;
  }

  lemma HasIdConcat(a: seq<ModEntry>, b: seq<ModEntry>, id: string)
    ensures HasId(a, id) || HasId(b, id) ==> HasId(a + b, id)
  {
    if HasId(a, id) {
      var k :| 0 <= k < |a| && a[k].id == id;
      assert (a + b)[k] == a[k];
    } else if HasId(b, id) {
      var k :| 0 <= k < |b| && b[k].id == id;
      assert (a + b)[|a| + k] == b[k];
    }
  }

  lemma HasIdReverse(c: seq<ModEntry>, id: string)
    ensures HasId(c, id) ==> HasId(Reverse(c), id)
  {
    if HasId(c, id) {
      var k :| 0 <= k < |c| && c[k].id == id;
      assert Reverse(c)[|c| - 1 - k] == c[k];
    }
  }

  /** The starting list holds entries of the user's list, and every entry of an existing mod under its id. */
  lemma StartOrigin(mods: seq<ModEntry>, infos: seq<ModInfo>)
    ensures forall x :: x in Start(mods, infos) ==> x in mods
    ensures forall x :: x in mods && Known(infos, x.id) ==> HasId(Start(mods, infos), x.id)
  {
    var p := PruneFrom(mods, infos, false, [], []);
    var rc := Reverse(p.corrupted);
    PruneOrigin(mods, infos, false, [], []);
    ReverseMembers(p.corrupted);
    assert forall x :: x in rc + p.kept ==> x in rc || x in p.kept;
    forall x | x in mods && Known(infos, x.id) ensures HasId(rc + p.kept, x.id) {
      HasIdReverse(p.corrupted, x.id);
      HasIdConcat(rc, p.kept, x.id);
    }
  }

  /** Distinct ids in the user's list stay distinct in the starting list. */
  lemma StartDistinct(mods: seq<ModEntry>, infos: seq<ModInfo>)
    requires DistinctIds(mods)
    ensures DistinctIds(Start(mods, infos))
  {
    var p := PruneFrom(mods, infos, false, [], []);
    var rc := Reverse(p.corrupted);
    PruneDistinct(mods, infos, false, [], []);
    ReverseMembers(p.corrupted);
    DistinctReverse(p.corrupted);
    DistinctConcat(rc, p.kept);
  }

  // ---------------------------------------------------------------------------
  // Phase 3: scan the available mods

  /** The list being updated and the masters met so far (empty string: none). */
  datatype ScanState = ScanState(mods: seq<ModEntry>, activeMaster: string, inactiveMaster: string)

  /** One iteration of the scan loop, for one available mod; `masterMod` is the requested master. */
  function ScanStep(s: ScanState, info: ModInfo, masterMod: string): ScanState
  {
    var j := FindId(s.mods, info.id);
    if j >= 0 then
      if !info.isMaster then s
      else
        var flag := if masterMod != "" then masterMod == info.id else s.mods[j].active;
        if flag && s.activeMaster == "" then
          ScanState(s.mods[j := ModEntry(info.id, true)], info.id, s.inactiveMaster)
        else if flag then
          // too many active masters: this one is turned off
          ScanState(s.mods[j := ModEntry(info.id, false)], s.activeMaster, s.inactiveMaster)
        else
          // the standard masters are preferred as fallback over third-party ones
          var preferred := s.inactiveMaster == "" || info.id == "xcom1" || info.id == "xcom2";
          ScanState(s.mods[j := ModEntry(info.id, false)], s.activeMaster,
                    if preferred then info.id else s.inactiveMaster)
    else if info.isMaster then
      ScanState([ModEntry(info.id, false)] + s.mods, s.activeMaster,
                if s.inactiveMaster == "" then info.id else s.inactiveMaster)
    else
      ScanState(s.mods + [ModEntry(info.id, false)], s.activeMaster, s.inactiveMaster)
  }

  /** The scan loop from the `k`-th available mod on. */
  function ScanFrom(infos: seq<ModInfo>, k: nat, masterMod: string, s: ScanState): ScanState
    decreases |infos| - k
  {
    if k >= |infos| then s else ScanFrom(infos, k + 1, masterMod, ScanStep(s, infos[k], masterMod))
  }

  // ---------------------------------------------------------------------------
  // Phase 4: settle the master

  /** The new list, the new `_masterMod`, and false when "No X-COM installations found" is thrown. */
  datatype Outcome = Outcome(mods: seq<ModEntry>, masterMod: string, ok: bool)

  function Finish(s: ScanState, masterMod: string): Outcome
  {
    if s.activeMaster != "" then Outcome(s.mods, s.activeMaster, true)
    else if s.inactiveMaster == "" then Outcome(s.mods, masterMod, false)
    else
      var j := IndexOf(s.mods, ModEntry(s.inactiveMaster, false));
      // j is never -1: see FallbackFound
      if j >= 0 then Outcome(s.mods[j := ModEntry(s.inactiveMaster, true)], s.inactiveMaster, true)
      else Outcome(s.mods, s.inactiveMaster, true)
  }

  /** The whole reconciliation; `reload` clears the requested master first. */
  function Refresh(mods: seq<ModEntry>, masterMod: string, reload: bool, infos: seq<ModInfo>): Outcome
  {
    var mm := if reload then "" else masterMod;
    Finish(ScanFrom(infos, 0, mm, ScanState(Start(mods, infos), "", "")), mm)
  }

  // ---------------------------------------------------------------------------
  // What the scan keeps true

  /** The id of one of the first `k` available mods. */
  predicate Processed(infos: seq<ModInfo>, k: nat, id: string)
  {
    exists p :: 0 <= p < k && p < |infos| && infos[p].id == id
  }

  lemma ProcessedNext(infos: seq<ModInfo>, k: nat, id: string)
    requires k < |infos|
    ensures Processed(infos, k + 1, id) <==> Processed(infos, k, id) || id == infos[k].id
  {
  }

  lemma NotYetProcessed(infos: seq<ModInfo>, k: nat)
    requires DistinctInfoIds(infos) && k < |infos|
    ensures !Processed(infos, k, infos[k].id)
  {
  }

  predicate NonEmptyIds(infos: seq<ModInfo>)
  {
    forall p :: 0 <= p < |infos| ==> infos[p].id != ""
  }

  /** Replacing an entry by one with the same id changes no id. */
  lemma UpdateFacts(infos: seq<ModInfo>, m: seq<ModEntry>, j: int, x: ModEntry)
    requires 0 <= j < |m| && m[j].id == x.id
    ensures forall id :: HasId(m[j := x], id) <==> HasId(m, id)
    ensures DistinctIds(m) ==> DistinctIds(m[j := x])
    ensures MastersFirst(infos, m) ==> MastersFirst(infos, m[j := x])
    ensures AllKnown(infos, m) ==> AllKnown(infos, m[j := x])
  {
    var u := m[j := x];
    forall id | HasId(m, id) ensures HasId(u, id) {
      var k :| 0 <= k < |m| && m[k].id == id;
      assert u[k].id == id;
    }
    if AllKnown(infos, m) {
      forall e | e in u ensures Known(infos, e.id) {
        var k :| 0 <= k < |u| && u[k] == e;
        assert m[k] in m;
      }
    }
  }

  /** In a list without repeated ids, replacing the entry for `x.id` by `x` touches no other entry. */
  lemma UpdateMembers(m: seq<ModEntry>, j: int, x: ModEntry)
    requires 0 <= j < |m| && m[j].id == x.id && DistinctIds(m)
    ensures forall e :: e in m[j := x] ==> e == x || (e in m && e.id != x.id)
    ensures forall e :: e in m && e.id != x.id ==> e in m[j := x]
    ensures x in m[j := x]
  {
    var u := m[j := x];
    assert u[j] == x;
    forall e | e in u ensures e == x || (e in m && e.id != x.id) {
      var k :| 0 <= k < |u| && u[k] == e;
      if k != j {
        assert m[k] == e;
      }
    }
    forall e | e in m && e.id != x.id ensures e in u {
      var k :| 0 <= k < |m| && m[k] == e;
      assert u[k] == e;
    }
  }

  predicate ScanShape(infos: seq<ModInfo>, k: nat, start: seq<ModEntry>, mods: seq<ModEntry>)
  {
    && DistinctIds(mods)
    && AllKnown(infos, mods)
    && MastersFirst(infos, mods)
    && (forall p :: 0 <= p < k && p < |infos| ==> HasId(mods, infos[p].id))
    && (forall x :: x in start ==> HasId(mods, x.id))
    && (forall e :: e in mods ==> HasId(start, e.id) || Processed(infos, k, e.id))
  }

  lemma ShapeAfterUpdate(infos: seq<ModInfo>, k: nat, start: seq<ModEntry>, m: seq<ModEntry>, j: int, x: ModEntry)
    requires k < |infos| && 0 <= j < |m| && m[j].id == x.id == infos[k].id
    requires ScanShape(infos, k, start, m)
    ensures ScanShape(infos, k + 1, start, m[j := x])
  {
    UpdateFacts(infos, m, j, x);
    forall id ensures Processed(infos, k + 1, id) <==> Processed(infos, k, id) || id == infos[k].id {
      ProcessedNext(infos, k, id);
    }
  }

  /** A new master at the front of a list that does not hold its id. */
  lemma PrependFacts(infos: seq<ModInfo>, m: seq<ModEntry>, x: ModEntry)
    requires !HasId(m, x.id) && IsMaster(infos, x.id)
    ensures forall e :: e in [x] + m <==> e == x || e in m
    ensures forall id :: HasId([x] + m, id) <==> id == x.id || HasId(m, id)
    ensures DistinctIds(m) ==> DistinctIds([x] + m)
    ensures MastersFirst(infos, m) ==> MastersFirst(infos, [x] + m)
  {
    var m' := [x] + m;
    forall id | HasId(m', id) ensures id == x.id || HasId(m, id) {
      var i :| 0 <= i < |m'| && m'[i].id == id;
      if i > 0 {
        assert m[i - 1].id == id;
      }
    }
    forall id | HasId(m, id) ensures HasId(m', id) {
      var i :| 0 <= i < |m| && m[i].id == id;
      assert m'[i + 1].id == id;
    }
    assert HasId(m', x.id) by { assert m'[0] == x; }
    if DistinctIds(m) {
      forall a, b | 0 <= a < b < |m'| ensures m'[a].id != m'[b].id {
        if a > 0 {
          assert m'[a] == m[a - 1];
        }
        assert m'[b] == m[b - 1];
      }
    }
    if MastersFirst(infos, m) {
      forall a, b | 0 <= a < b < |m'| && IsMaster(infos, m'[b].id) ensures IsMaster(infos, m'[a].id) {
        if a > 0 {
          assert m'[a] == m[a - 1] && m'[b] == m[b - 1];
        }
      }
    }
  }

  /** A new non-master at the back of a list that does not hold its id. */
  lemma AppendFacts(infos: seq<ModInfo>, m: seq<ModEntry>, x: ModEntry)
    requires !HasId(m, x.id) && !IsMaster(infos, x.id)
    ensures forall e :: e in m + [x] <==> e == x || e in m
    ensures forall id :: HasId(m + [x], id) <==> id == x.id || HasId(m, id)
    ensures DistinctIds(m) ==> DistinctIds(m + [x])
    ensures MastersFirst(infos, m) ==> MastersFirst(infos, m + [x])
  {
    var m' := m + [x];
    forall id | HasId(m', id) ensures id == x.id || HasId(m, id) {
      var i :| 0 <= i < |m'| && m'[i].id == id;
      if i < |m| {
        assert m[i].id == id;
      }
    }
    forall id | HasId(m, id) ensures HasId(m', id) {
      var i :| 0 <= i < |m| && m[i].id == id;
      assert m'[i].id == id;
    }
    assert HasId(m', x.id) by { assert m'[|m|] == x; }
    if DistinctIds(m) {
      forall a, b | 0 <= a < b < |m'| ensures m'[a].id != m'[b].id {
        assert m'[a] == m[a];
        if b < |m| {
          assert m'[b] == m[b];
        }
      }
    }
    if MastersFirst(infos, m) {
      forall a, b | 0 <= a < b < |m'| && IsMaster(infos, m'[b].id) ensures IsMaster(infos, m'[a].id) {
        assert m'[a] == m[a] && m'[b] == m[b];
      }
    }
  }

  /** The scan shape survives adding one entry for the `k`-th available mod. */
  lemma ShapeAfterAdding(infos: seq<ModInfo>, k: nat, start: seq<ModEntry>, m: seq<ModEntry>, m': seq<ModEntry>, x: ModEntry)
    requires k < |infos| && x.id == infos[k].id && Known(infos, x.id)
    requires ScanShape(infos, k, start, m)
    requires forall e :: e in m' <==> e == x || e in m
    requires forall id :: HasId(m', id) <==> id == x.id || HasId(m, id)
    requires DistinctIds(m') && MastersFirst(infos, m')
    ensures ScanShape(infos, k + 1, start, m')
  {
    forall e | e in m' ensures HasId(start, e.id) || Processed(infos, k + 1, e.id) {
      ProcessedNext(infos, k, e.id);
    }
  }

  lemma ShapeAfterInsert(infos: seq<ModInfo>, k: nat, start: seq<ModEntry>, m: seq<ModEntry>, m': seq<ModEntry>)
    requires DistinctInfoIds(infos) && k < |infos|
    requires !HasId(m, infos[k].id)
    requires m' == (if infos[k].isMaster then [ModEntry(infos[k].id, false)] + m else m + [ModEntry(infos[k].id, false)])
    requires ScanShape(infos, k, start, m)
    ensures ScanShape(infos, k + 1, start, m')
  {
    var x := ModEntry(infos[k].id, false);
    LookupAt(infos, k);
    if infos[k].isMaster {
      PrependFacts(infos, m, x);
    } else {
      AppendFacts(infos, m, x);
    }
    ShapeAfterAdding(infos, k, start, m, m', x);
  }

  lemma ScanStepShape(infos: seq<ModInfo>, k: nat, masterMod: string, start: seq<ModEntry>, s: ScanState)
    requires DistinctInfoIds(infos) && k < |infos|
    requires ScanShape(infos, k, start, s.mods)
    ensures ScanShape(infos, k + 1, start, ScanStep(s, infos[k], masterMod).mods)
  {
    var s' := ScanStep(s, infos[k], masterMod);
    var j := FindId(s.mods, infos[k].id);
    if j >= 0 {
      if infos[k].isMaster {
        ShapeAfterUpdate(infos, k, start, s.mods, j, s'.mods[j]);
        assert s'.mods == s.mods[j := s'.mods[j]];
      } else {
        ShapeAfterUpdate(infos, k, start, s.mods, j, s.mods[j]);
        assert s.mods[j := s.mods[j]] == s.mods;
      }
    } else {
      ShapeAfterInsert(infos, k, start, s.mods, s'.mods);
    }
  }

  /**
   * What the scan keeps true of the flags, with `start` the list it began from and
   * `masterMod` the requested master:
   * new entries are inactive, non-master entries are untouched, every master met so
   * far is active exactly when it is the active master, the active master is a listed
   * master met so far, the fallback is a master met so far listed as inactive, and a
   * requested master that was listed becomes the active master once it is met.
   */
  predicate ScanFlags(infos: seq<ModInfo>, k: nat, masterMod: string, start: seq<ModEntry>, s: ScanState)
  {
    && (forall e :: e in s.mods && !HasId(start, e.id) ==> !e.active)
    && (forall e :: e in s.mods && !IsMaster(infos, e.id) ==> e in start || !HasId(start, e.id))
    && (forall e :: e in s.mods && IsMaster(infos, e.id) && Processed(infos, k, e.id) ==>
          (e.active <==> e.id == s.activeMaster))
    && (s.activeMaster != "" ==>
          Processed(infos, k, s.activeMaster) && IsMaster(infos, s.activeMaster) && HasId(start, s.activeMaster))
    && (s.inactiveMaster != "" ==>
          Processed(infos, k, s.inactiveMaster) && IsMaster(infos, s.inactiveMaster) &&
          ModEntry(s.inactiveMaster, false) in s.mods)
    && (s.activeMaster == "" && s.inactiveMaster == "" ==> forall p :: 0 <= p < k && p < |infos| ==> !infos[p].isMaster)
    && (masterMod != "" ==> s.activeMaster == "" || s.activeMaster == masterMod)
    && (masterMod != "" && HasId(start, masterMod) && IsMaster(infos, masterMod) && Processed(infos, k, masterMod) ==>
          s.activeMaster == masterMod)
  }

  lemma KnownNonEmpty(infos: seq<ModInfo>, id: string)
    requires NonEmptyIds(infos) && Known(infos, id)
    ensures id != ""
  {
  }

  /**
   * The flags survive replacing the entry of the `k`-th available mod, a master
   * already listed, by `x`, given how the scan may move the two master ids.
   */
  lemma FlagsAfterReplace(infos: seq<ModInfo>, k: nat, masterMod: string, start: seq<ModEntry>,
                          s: ScanState, s': ScanState, x: ModEntry)
    requires NonEmptyIds(infos) && k < |infos| && x.id == infos[k].id
    requires IsMaster(infos, x.id) && HasId(start, x.id) && !Processed(infos, k, x.id)
    requires ScanFlags(infos, k, masterMod, start, s)
    requires forall e :: e in s'.mods ==> e == x || (e in s.mods && e.id != x.id)
    requires forall e :: e in s.mods && e.id != x.id ==> e in s'.mods
    requires x in s'.mods
    requires x.active <==> x.id == s'.activeMaster
    requires s'.activeMaster == s.activeMaster || (s.activeMaster == "" && s'.activeMaster == x.id)
    requires s'.inactiveMaster == s.inactiveMaster || (s'.inactiveMaster == x.id && !x.active)
    requires s'.activeMaster != "" || s'.inactiveMaster != ""
    requires masterMod != "" && s'.activeMaster != s.activeMaster ==> masterMod == x.id
    requires masterMod == x.id && s.activeMaster == "" ==> s'.activeMaster == x.id
    ensures ScanFlags(infos, k + 1, masterMod, start, s')
  {
    forall id ensures Processed(infos, k + 1, id) <==> Processed(infos, k, id) || id == x.id {
      ProcessedNext(infos, k, id);
    }
    forall e | e in s'.mods && IsMaster(infos, e.id) && Processed(infos, k + 1, e.id)
      ensures e.active <==> e.id == s'.activeMaster
    {
      if e != x {
        KnownNonEmpty(infos, e.id);
      }
    }
    assert x.id != "" by {
      KnownNonEmpty(infos, x.id);
    }
  }

  /** A listed master met by the scan. */
  lemma FlagsAfterUpdate(infos: seq<ModInfo>, k: nat, masterMod: string, start: seq<ModEntry>, s: ScanState)
    requires DistinctInfoIds(infos) && NonEmptyIds(infos) && k < |infos| && infos[k].isMaster
    requires HasId(s.mods, infos[k].id)
    requires DistinctIds(s.mods) && forall e :: e in s.mods ==> HasId(start, e.id) || Processed(infos, k, e.id)
    requires ScanFlags(infos, k, masterMod, start, s)
    ensures ScanFlags(infos, k + 1, masterMod, start, ScanStep(s, infos[k], masterMod))
  {
    var X := infos[k].id;
    var j := FindId(s.mods, X);
    var s' := ScanStep(s, infos[k], masterMod);
    var x := s'.mods[j];
    assert s'.mods == s.mods[j := x];
    assert x.id == X;
    LookupAt(infos, k);
    NotYetProcessed(infos, k);
    assert s.mods[j] in s.mods;
    var flag := if masterMod != "" then masterMod == X else s.mods[j].active;
    var preferred := s.inactiveMaster == "" || X == "xcom1" || X == "xcom2";
    assert x == ModEntry(X, flag && s.activeMaster == "");
    assert s'.activeMaster == if flag && s.activeMaster == "" then X else s.activeMaster;
    assert s'.inactiveMaster == if flag || !preferred then s.inactiveMaster else X;
    UpdateMembers(s.mods, j, x);
    FlagsAfterReplace(infos, k, masterMod, start, s, s', x);
  }

  /**
   * The flags survive adding an inactive entry `x` for the `k`-th available mod,
   * which the starting list did not hold; a master may become the fallback.
   */
  lemma FlagsAfterAdd(infos: seq<ModInfo>, k: nat, masterMod: string, start: seq<ModEntry>,
                      s: ScanState, s': ScanState, x: ModEntry)
    requires k < |infos| && x == ModEntry(infos[k].id, false) && x.id != ""
    requires !HasId(start, x.id) && !Processed(infos, k, x.id)
    requires IsMaster(infos, x.id) <==> infos[k].isMaster
    requires ScanFlags(infos, k, masterMod, start, s)
    requires forall e :: e in s'.mods <==> e == x || e in s.mods
    requires s'.activeMaster == s.activeMaster
    requires s'.inactiveMaster == s.inactiveMaster || (infos[k].isMaster && s'.inactiveMaster == x.id)
    requires infos[k].isMaster ==> s'.inactiveMaster != ""
    ensures ScanFlags(infos, k + 1, masterMod, start, s')
  {
    forall id ensures Processed(infos, k + 1, id) <==> Processed(infos, k, id) || id == x.id {
      ProcessedNext(infos, k, id);
    }
  }

  /** An available mod the list did not hold. */
  lemma FlagsAfterInsert(infos: seq<ModInfo>, k: nat, masterMod: string, start: seq<ModEntry>, s: ScanState)
    requires DistinctInfoIds(infos) && NonEmptyIds(infos) && k < |infos|
    requires !HasId(s.mods, infos[k].id)
    requires forall y :: y in start ==> HasId(s.mods, y.id)
    requires ScanFlags(infos, k, masterMod, start, s)
    ensures ScanFlags(infos, k + 1, masterMod, start, ScanStep(s, infos[k], masterMod))
  {
    var X := infos[k].id;
    var x := ModEntry(X, false);
    var s' := ScanStep(s, infos[k], masterMod);
    LookupAt(infos, k);
    NotYetProcessed(infos, k);
    assert !HasId(start, X);
    if infos[k].isMaster {
      assert s'.mods == [x] + s.mods;
    } else {
      assert s'.mods == s.mods + [x];
    }
    FlagsAfterAdd(infos, k, masterMod, start, s, s', x);
  }

  /** A listed non-master: nothing changes. */
  lemma FlagsAfterSkip(infos: seq<ModInfo>, k: nat, masterMod: string, start: seq<ModEntry>, s: ScanState)
    requires DistinctInfoIds(infos) && k < |infos| && !infos[k].isMaster
    requires HasId(s.mods, infos[k].id)
    requires ScanFlags(infos, k, masterMod, start, s)
    ensures ScanFlags(infos, k + 1, masterMod, start, ScanStep(s, infos[k], masterMod))
  {
    LookupAt(infos, k);
    forall id ensures Processed(infos, k + 1, id) <==> Processed(infos, k, id) || id == infos[k].id {
      ProcessedNext(infos, k, id);
    }
  }

  lemma {:induction false} ScanInvariant(infos: seq<ModInfo>, k: nat, masterMod: string, start: seq<ModEntry>, s: ScanState)
    requires DistinctInfoIds(infos) && NonEmptyIds(infos) && k <= |infos|
    requires ScanShape(infos, k, start, s.mods) && ScanFlags(infos, k, masterMod, start, s)
    ensures ScanShape(infos, |infos|, start, ScanFrom(infos, k, masterMod, s).mods)
    ensures ScanFlags(infos, |infos|, masterMod, start, ScanFrom(infos, k, masterMod, s))
    decreases |infos| - k
  {
    if k < |infos| {
      ScanStepShape(infos, k, masterMod, start, s);
      if !HasId(s.mods, infos[k].id) {
        FlagsAfterInsert(infos, k, masterMod, start, s);
      } else if infos[k].isMaster {
        FlagsAfterUpdate(infos, k, masterMod, start, s);
      } else {
        FlagsAfterSkip(infos, k, masterMod, start, s);
      }
      ScanInvariant(infos, k + 1, masterMod, start, ScanStep(s, infos[k], masterMod));
    }
  }

  /** What the reconciliation assumes of its inputs: map-ordered infos with non-empty ids, and a list without repeated ids. */
  predicate WellFormed(mods: seq<ModEntry>, infos: seq<ModInfo>)
  {
    IsMapOrder(infos) && NonEmptyIds(infos) && DistinctIds(mods)
  }

  /** The state the scan ends in. */
  function Scanned(mods: seq<ModEntry>, masterMod: string, reload: bool, infos: seq<ModInfo>): ScanState
  {
    ScanFrom(infos, 0, if reload then "" else masterMod, ScanState(Start(mods, infos), "", ""))
  }

  lemma ScanResult(mods: seq<ModEntry>, masterMod: string, reload: bool, infos: seq<ModInfo>)
    requires WellFormed(mods, infos)
    ensures var start := Start(mods, infos);
      && ScanShape(infos, |infos|, start, Scanned(mods, masterMod, reload, infos).mods)
      && ScanFlags(infos, |infos|, if reload then "" else masterMod, start, Scanned(mods, masterMod, reload, infos))
      && (forall x :: x in start ==> x in mods)
      && (forall x :: x in mods && Known(infos, x.id) ==> HasId(start, x.id))
    ensures forall id :: Processed(infos, |infos|, id) <==> Known(infos, id)
  {
    var start := Start(mods, infos);
    MapOrderDistinct(infos);
    StartShape(mods, infos);
    StartOrigin(mods, infos);
    StartDistinct(mods, infos);
    ScanInvariant(infos, 0, if reload then "" else masterMod, start, ScanState(start, "", ""));
  }

  /** The fallback master is always found by `std::find`: the end iterator is never dereferenced. */
  lemma FallbackFound(mods: seq<ModEntry>, masterMod: string, reload: bool, infos: seq<ModInfo>)
    requires WellFormed(mods, infos)
    ensures var s := Scanned(mods, masterMod, reload, infos);
      s.inactiveMaster != "" ==> IndexOf(s.mods, ModEntry(s.inactiveMaster, false)) >= 0
  {
    ScanResult(mods, masterMod, reload, infos);
  }

  /** Afterwards the list holds exactly the available mods, each once, masters first. */
  lemma RefreshListsAvailable(mods: seq<ModEntry>, masterMod: string, reload: bool, infos: seq<ModInfo>)
    requires WellFormed(mods, infos)
    ensures var r := Refresh(mods, masterMod, reload, infos);
      && (forall e :: e in r.mods ==> Known(infos, e.id))
      && (forall p :: 0 <= p < |infos| ==> HasId(r.mods, infos[p].id))
      && DistinctIds(r.mods)
      && MastersFirst(infos, r.mods)
  {
    var s := Scanned(mods, masterMod, reload, infos);
    ScanResult(mods, masterMod, reload, infos);
    var j := IndexOf(s.mods, ModEntry(s.inactiveMaster, false));
    if s.activeMaster == "" && s.inactiveMaster != "" {
      UpdateFacts(infos, s.mods, j, ModEntry(s.inactiveMaster, true));
    }
  }

  /** The exception is thrown exactly when no master mod is available; then `_masterMod` is left as it was after the reload reset. */
  lemma RefreshFailsIffNoMaster(mods: seq<ModEntry>, masterMod: string, reload: bool, infos: seq<ModInfo>)
    requires WellFormed(mods, infos)
    ensures var r := Refresh(mods, masterMod, reload, infos);
      && (r.ok <==> exists p :: 0 <= p < |infos| && infos[p].isMaster)
      && (!r.ok ==> r.masterMod == (if reload then "" else masterMod))
  {
    var s := Scanned(mods, masterMod, reload, infos);
    var id := if s.activeMaster != "" then s.activeMaster else s.inactiveMaster;
    assert (id != "" ==> IsMaster(infos, id)) &&
           (id == "" ==> forall p :: 0 <= p < |infos| ==> !infos[p].isMaster) by {
      ScanResult(mods, masterMod, reload, infos);
    }
    assert Refresh(mods, masterMod, reload, infos).ok <==> id != "";
  }

  /** On success exactly one master is active, and `_masterMod` names it. */
  lemma RefreshSingleMaster(mods: seq<ModEntry>, masterMod: string, reload: bool, infos: seq<ModInfo>)
    requires WellFormed(mods, infos)
    ensures var r := Refresh(mods, masterMod, reload, infos);
      r.ok ==>
        && IsMaster(infos, r.masterMod)
        && ModEntry(r.masterMod, true) in r.mods
        && (forall e :: e in r.mods && IsMaster(infos, e.id) ==> (e.active <==> e.id == r.masterMod))
  {
    var s := Scanned(mods, masterMod, reload, infos);
    var am, im := s.activeMaster, s.inactiveMaster;
    assert DistinctIds(s.mods) by {
      ScanResult(mods, masterMod, reload, infos);
    }
    assert && (forall e :: e in s.mods && IsMaster(infos, e.id) ==> (e.active <==> e.id == am))
           && (am != "" ==> IsMaster(infos, am) && ModEntry(am, true) in s.mods)
           && (im != "" ==> IsMaster(infos, im) && ModEntry(im, false) in s.mods)
    by {
      ScanResult(mods, masterMod, reload, infos);
      if am != "" {
        var p :| 0 <= p < |infos| && infos[p].id == am;
        var i :| 0 <= i < |s.mods| && s.mods[i].id == am;
        assert s.mods[i] in s.mods;
      }
    }
    if am == "" && im != "" {
      var j := IndexOf(s.mods, ModEntry(im, false));
      var x := ModEntry(im, true);
      UpdateMembers(s.mods, j, x);
      forall e | e in s.mods[j := x] && IsMaster(infos, e.id) ensures e.active <==> e.id == im {
        if e != x {
          assert e in s.mods;
          KnownNonEmpty(infos, e.id);
        }
      }
    }
  }

  /**
   * Mods that were not listed before are added inactive, unless one of them is
   * chosen as the fallback master; non-master entries keep their flag.
   */
  lemma RefreshNewEntries(mods: seq<ModEntry>, masterMod: string, reload: bool, infos: seq<ModInfo>)
    requires WellFormed(mods, infos)
    ensures var r := Refresh(mods, masterMod, reload, infos);
      && (forall e :: e in r.mods && !HasId(mods, e.id) ==> !e.active || (r.ok && e.id == r.masterMod))
      && (forall e :: e in r.mods && !IsMaster(infos, e.id) ==> e in mods || (!HasId(mods, e.id) && !e.active))
  {
    var s := Scanned(mods, masterMod, reload, infos);
    var am, im := s.activeMaster, s.inactiveMaster;
    assert && DistinctIds(s.mods)
           && (im != "" ==> IsMaster(infos, im) && ModEntry(im, false) in s.mods)
           && (forall e :: e in s.mods && !HasId(mods, e.id) ==> !e.active)
           && (forall e :: e in s.mods && !IsMaster(infos, e.id) ==> e in mods || (!HasId(mods, e.id) && !e.active))
    by {
      var start := Start(mods, infos);
      ScanResult(mods, masterMod, reload, infos);
      forall id | HasId(start, id) ensures HasId(mods, id) {
        var i :| 0 <= i < |start| && start[i].id == id;
        assert start[i] in start;
        var i' :| 0 <= i' < |mods| && mods[i'] == start[i];
      }
      forall id | HasId(mods, id) && Known(infos, id) ensures HasId(start, id) {
        var i :| 0 <= i < |mods| && mods[i].id == id;
        assert mods[i] in mods;
      }
    }
    if am == "" && im != "" {
      var j := IndexOf(s.mods, ModEntry(im, false));
      UpdateMembers(s.mods, j, ModEntry(im, true));
    }
  }

  /** A requested master that is listed and available is the one left active. */
  lemma RefreshHonoursRequest(mods: seq<ModEntry>, masterMod: string, reload: bool, infos: seq<ModInfo>)
    requires WellFormed(mods, infos)
    requires !reload && masterMod != "" && HasId(mods, masterMod) && IsMaster(infos, masterMod)
    ensures Refresh(mods, masterMod, reload, infos).ok
    ensures Refresh(mods, masterMod, reload, infos).masterMod == masterMod
  {
    ScanResult(mods, masterMod, reload, infos);
    var i :| 0 <= i < |mods| && mods[i].id == masterMod;
    assert mods[i] in mods;
  }

  // ---------------------------------------------------------------------------
  // Default mods and the active-mod query

  /** The entries `_setDefaultMods` appends for the installed original games. */
  function DefaultMods(haveUfo: bool, haveTftd: bool): (r: seq<ModEntry>)
    ensures |r| == (if haveUfo then 1 else 0) + (if haveTftd then 1 else 0)
    ensures haveUfo <==> ModEntry("xcom1", true) in r
    ensures haveTftd <==> ModEntry("xcom2", !haveUfo) in r
    ensures forall e :: e in r ==> e.id == "xcom1" || e.id == "xcom2"
    ensures haveUfo && haveTftd ==> r[0].id == "xcom1"
  {
    (if haveUfo then [ModEntry("xcom1", true)] else []) +
    (if haveTftd then [ModEntry("xcom2", !haveUfo)] else [])
  }

  /** At most one default master is active, and one is whenever a game is installed. */
  lemma DefaultModsOneActive(haveUfo: bool, haveTftd: bool)
    ensures var r := DefaultMods(haveUfo, haveTftd);
      && (forall i, j :: 0 <= i < j < |r| ==> !(r[i].active && r[j].active))
      && ((haveUfo || haveTftd) <==> exists i :: 0 <= i < |r| && r[i].active)
  {
    var r := DefaultMods(haveUfo, haveTftd);
    if haveUfo {
      assert r[0].active;
    } else if haveTftd {
      assert r[0] == ModEntry("xcom2", true);
    }
  }

  /**
   * `getActiveMods`: the ids of the active entries, in list order, whose mod can be
   * activated under the current master (`canActivate` holds those ids); `None`
   * when an active entry names a mod that is not available (`std::map::at` throws).
   */
  function ActiveMods(mods: seq<ModEntry>, infos: seq<ModInfo>, canActivate: set<string>): (r: Option<seq<string>>)
    ensures r.None? <==> exists e :: e in mods && e.active && !Known(infos, e.id)
    ensures r.Some? ==> forall id :: id in r.value <==>
      (id in canActivate && exists e :: e in mods && e.active && e.id == id)
    ensures r.Some? ==> |r.value| <= |mods|
    decreases |mods|
  {
    if mods == [] then Some([])
    else
      var e := mods[|mods| - 1];
      var front := mods[..|mods| - 1];
      assert forall x :: x in mods <==> x == e || x in front;
      var r := ActiveMods(front, infos, canActivate);
      if r.None? then None
      else if e.active && !Known(infos, e.id) then None
      else if e.active && e.id in canActivate then Some(r.value + [e.id])
      else r
  }

  /** Whether an entry's id goes into the active-mod list. */
  predicate Selected(e: ModEntry, canActivate: set<string>)
  {
    e.active && e.id in canActivate
  }

  /**
   * `ids` lists, position by position, the entries of `mods` at the strictly
   * increasing positions `idx`, and `idx` holds every selected position.
   */
  predicate SelectsInOrder(mods: seq<ModEntry>, canActivate: set<string>, idx: seq<int>, ids: seq<string>)
  {
    && |idx| == |ids|
    && (forall k :: 0 <= k < |idx| ==>
          0 <= idx[k] < |mods| && Selected(mods[idx[k]], canActivate) && ids[k] == mods[idx[k]].id)
    && (forall k, l :: 0 <= k < l < |idx| ==> idx[k] < idx[l])
    && (forall p :: 0 <= p < |mods| && Selected(mods[p], canActivate) ==> p in idx)
  }

  /** The positions of the selected entries, in list order. */
  function SelectedPositions(mods: seq<ModEntry>, canActivate: set<string>): (idx: seq<int>)
    ensures forall k :: 0 <= k < |idx| ==> 0 <= idx[k] < |mods|
    decreases |mods|
  {
    if mods == [] then []
    else
      var n := |mods| - 1;
      SelectedPositions(mods[..n], canActivate) + (if Selected(mods[n], canActivate) then [n] else [])
  }

  /** A selection of a prefix of the list is a selection of the whole list up to its last entry. */
  lemma SelectsWiden(mods: seq<ModEntry>, canActivate: set<string>, idx: seq<int>, ids: seq<string>)
    requires mods != []
    requires SelectsInOrder(mods[..|mods| - 1], canActivate, idx, ids)
    ensures forall k :: 0 <= k < |idx| ==>
      0 <= idx[k] < |mods| - 1 && Selected(mods[idx[k]], canActivate) && ids[k] == mods[idx[k]].id
    ensures forall p :: 0 <= p < |mods| - 1 && Selected(mods[p], canActivate) ==> p in idx
  {
    var front := mods[..|mods| - 1];
    assert forall p :: 0 <= p < |front| ==> front[p] == mods[p];
  }

  /** An entry that is not selected leaves the selection as it is. */
  lemma SelectsSkip(mods: seq<ModEntry>, canActivate: set<string>, idx: seq<int>, ids: seq<string>)
    requires mods != [] && !Selected(mods[|mods| - 1], canActivate)
    requires SelectsInOrder(mods[..|mods| - 1], canActivate, idx, ids)
    ensures SelectsInOrder(mods, canActivate, idx, ids)
  {
    SelectsWiden(mods, canActivate, idx, ids);
  }

  /** A selected entry is added to the selection at its end. */
  lemma SelectsAppend(mods: seq<ModEntry>, canActivate: set<string>, idx: seq<int>, ids: seq<string>)
    requires mods != [] && Selected(mods[|mods| - 1], canActivate)
    requires SelectsInOrder(mods[..|mods| - 1], canActivate, idx, ids)
    ensures SelectsInOrder(mods, canActivate, idx + [|mods| - 1], ids + [mods[|mods| - 1].id])
  {
    var n := |mods| - 1;
    SelectsWiden(mods, canActivate, idx, ids);
    var idx2, ids2 := idx + [n], ids + [mods[n].id];
    forall k | 0 <= k < |idx2|
      ensures 0 <= idx2[k] < |mods| && Selected(mods[idx2[k]], canActivate) && ids2[k] == mods[idx2[k]].id
    {
      if k < |idx| {
        assert idx2[k] == idx[k] && ids2[k] == ids[k];
      }
    }
    forall k, l | 0 <= k < l < |idx2| ensures idx2[k] < idx2[l] {
      assert idx2[k] == idx[k];
    }
    forall p | 0 <= p < |mods| && Selected(mods[p], canActivate) ensures p in idx2 {
      assert idx2[|idx|] == n;
    }
  }

  lemma {:induction false} ActiveModsSelect(mods: seq<ModEntry>, infos: seq<ModInfo>, canActivate: set<string>)
    requires ActiveMods(mods, infos, canActivate).Some?
    ensures SelectsInOrder(mods, canActivate, SelectedPositions(mods, canActivate), ActiveMods(mods, infos, canActivate).value)
    decreases |mods|
  {
    if mods != [] {
      var n := |mods| - 1;
      var front := mods[..n];
      var idx, ids := SelectedPositions(front, canActivate), ActiveMods(front, infos, canActivate).value;
      ActiveModsSelect(front, infos, canActivate);
      if Selected(mods[n], canActivate) {
        SelectsAppend(mods, canActivate, idx, ids);
      } else {
        SelectsSkip(mods, canActivate, idx, ids);
      }
    }
  }

  /**
   * The active-mod list is in list order with one id per selected entry: it is the
   * ids of the selected entries at strictly increasing positions, and no selected
   * entry is left out.
   */
  lemma ActiveModsInOrder(mods: seq<ModEntry>, infos: seq<ModInfo>, canActivate: set<string>)
    requires ActiveMods(mods, infos, canActivate).Some?
    ensures exists idx :: SelectsInOrder(mods, canActivate, idx, ActiveMods(mods, infos, canActivate).value)
  {
    ActiveModsSelect(mods, infos, canActivate);
  }

}
