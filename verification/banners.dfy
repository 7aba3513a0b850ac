/** The banner rewards hook: which banners a user's hearts unlock, the
    statistics shown with them, and the slot a newly unlocked banner is
    equipped into. */
module Banners {
  import opened Wrappers

  datatype Rarity = Common | Rare | Epic | Legendary

  /** A row of the banner catalogue. */
  datatype Banner = Banner(id: string, emoji: string, name: string, rarity: Rarity, heartsRequired: int)

  /** A row recording that a user unlocked a banner. */
  datatype UnlockRow = UnlockRow(bannerId: string, unlockedAt: string)

  /** A catalogue entry as the user sees it. */
  datatype UserBanner = UserBanner(
    id: string, emoji: string, name: string, rarity: Rarity, heartsRequired: int,
    unlocked: bool, unlockedAt: Option<string>)

  datatype Stats = Stats(total: nat, unlocked: nat, userHearts: int)

  predicate HasUnlockRow(rows: seq<UnlockRow>, id: string) {
    exists i :: 0 <= i < |rows| && rows[i].bannerId == id
  }

  /** The `unlocked_at` of the first unlock row for `id`, if any. */
  function FirstUnlockedAt(rows: seq<UnlockRow>, id: string): (r: Option<string>)
    ensures r.Some? <==> HasUnlockRow(rows, id)
    // The date comes from the first row for `id`, the one `find` returns.
    ensures r.Some? ==> exists i :: 0 <= i < |rows| && rows[i].bannerId == id && rows[i].unlockedAt == r.value
                                    && forall j :: 0 <= j < i ==> rows[j].bannerId != id
  {
    if rows == [] then None
    else if rows[0].bannerId == id then Some(rows[0].unlockedAt)
    else
      var r := FirstUnlockedAt(rows[1..], id);
      assert HasUnlockRow(rows, id) ==> HasUnlockRow(rows[1..], id) by {
        if HasUnlockRow(rows, id) {
          var i :| 0 <= i < |rows| && rows[i].bannerId == id;
          assert rows[1..][i - 1] == rows[i];
        }
      }
      assert r.Some? ==> exists i :: 0 <= i < |rows| && rows[i].bannerId == id && rows[i].unlockedAt == r.value
                                     && forall j :: 0 <= j < i ==> rows[j].bannerId != id by {
        if r.Some? {
          var i :| 0 <= i < |rows[1..]| && rows[1..][i].bannerId == id && rows[1..][i].unlockedAt == r.value
                   && forall j :: 0 <= j < i ==> rows[1..][j].bannerId != id;
          assert rows[i + 1] == rows[1..][i];
          forall j | 0 <= j < i + 1
            ensures rows[j].bannerId != id
          {
            if j > 0 {
              assert rows[j] == rows[1..][j - 1];
            }
          }
        }
      }
      r
  }

  /** A banner is unlocked when it was unlocked before or the hearts cover it. */
  predicate IsUnlocked(b: Banner, rows: seq<UnlockRow>, hearts: int) {
    HasUnlockRow(rows, b.id) || hearts >= b.heartsRequired
  }

  /** Unlocked by this fetch, and so auto-equipped. */
  predicate NewlyUnlocked(b: Banner, rows: seq<UnlockRow>, hearts: int) {
    !HasUnlockRow(rows, b.id) && hearts >= b.heartsRequired
  }

  function Annotate(b: Banner, rows: seq<UnlockRow>, hearts: int): UserBanner {
    UserBanner(b.id, b.emoji, b.name, b.rarity, b.heartsRequired,
               HasUnlockRow(rows, b.id) || hearts >= b.heartsRequired, FirstUnlockedAt(rows, b.id))
  }

  /** The combined list: one entry per catalogue banner, in catalogue order,
      with its fields copied and its unlock state added. */
  function Combine(banners: seq<Banner>, rows: seq<UnlockRow>, hearts: int): (r: seq<UserBanner>)
    ensures |r| == |banners|
    ensures forall i :: 0 <= i < |r| ==>
              && r[i].id == banners[i].id && r[i].emoji == banners[i].emoji && r[i].name == banners[i].name
              && r[i].rarity == banners[i].rarity && r[i].heartsRequired == banners[i].heartsRequired
              && (r[i].unlocked <==> IsUnlocked(banners[i], rows, hearts))
              && (r[i].unlockedAt.Some? <==> HasUnlockRow(rows, banners[i].id))
              && r[i].unlockedAt == FirstUnlockedAt(rows, banners[i].id)
  {
    seq(|banners|, i requires 0 <= i < |banners| => Annotate(banners[i], rows, hearts))
  }

  /** The ids handed to `autoEquipBanner`, in catalogue order. */
  function AutoEquipIds(banners: seq<Banner>, rows: seq<UnlockRow>, hearts: int): (ids: seq<string>)
    ensures |ids| <= |banners|
    ensures forall k :: 0 <= k < |ids| ==> !HasUnlockRow(rows, ids[k])
  {
    if banners == [] then []
    else
      (if NewlyUnlocked(banners[0], rows, hearts) then [banners[0].id] else [])
      + AutoEquipIds(banners[1..], rows, hearts)
  }

  /** Exactly the banners not unlocked before whose requirement the hearts meet are auto-equipped. */
  lemma {:induction false} AutoEquipExactlyNew(banners: seq<Banner>, rows: seq<UnlockRow>, hearts: int, id: string)
    ensures id in AutoEquipIds(banners, rows, hearts) <==>
              exists i :: 0 <= i < |banners| && banners[i].id == id && NewlyUnlocked(banners[i], rows, hearts)
    decreases |banners|
  {
    if banners != [] {
      AutoEquipExactlyNew(banners[1..], rows, hearts, id);
      if exists i :: 0 <= i < |banners| && banners[i].id == id && NewlyUnlocked(banners[i], rows, hearts) {
        var i :| 0 <= i < |banners| && banners[i].id == id && NewlyUnlocked(banners[i], rows, hearts);
        if i > 0 {
          assert banners[1..][i - 1] == banners[i];
        }
      }
      if exists i :: 0 <= i < |banners[1..]| && banners[1..][i].id == id && NewlyUnlocked(banners[1..][i], rows, hearts) {
        var i :| 0 <= i < |banners[1..]| && banners[1..][i].id == id && NewlyUnlocked(banners[1..][i], rows, hearts);
        assert banners[i + 1] == banners[1..][i];
      }
    }
  }

  function CountUnlocked(bs: seq<UserBanner>): (n: nat)
    ensures n <= |bs|
  {
    if bs == [] then 0 else (if bs[0].unlocked then 1 else 0) + CountUnlocked(bs[1..])
  }

  /** The unlocked count splits into the banners unlocked before and the ones
      this fetch unlocks (and auto-equips). */
  lemma {:induction false} UnlockedSplits(banners: seq<Banner>, rows: seq<UnlockRow>, hearts: int)
    ensures CountUnlocked(Combine(banners, rows, hearts))
            == CountPreviouslyUnlocked(banners, rows) + |AutoEquipIds(banners, rows, hearts)|
    decreases |banners|
  {
    if banners != [] {
      var c := Combine(banners, rows, hearts);
      assert c[1..] == Combine(banners[1..], rows, hearts);
      UnlockedSplits(banners[1..], rows, hearts);
    }
  }

  function CountPreviouslyUnlocked(banners: seq<Banner>, rows: seq<UnlockRow>): nat {
    if banners == [] then 0
    else (if HasUnlockRow(rows, banners[0].id) then 1 else 0) + CountPreviouslyUnlocked(banners[1..], rows)
  }

  /** What `fetchUserBanners` leaves behind. */
  datatype Fetched =
    | NotSignedIn
    | FetchFailed
    | Loaded(banners: seq<UserBanner>, stats: Stats, autoEquip: seq<string>)

  /** The three reads of `fetchUserBanners`: the profile's nullable
      `hearts_count`, the catalogue, and the user's unlock rows. */
  datatype Reads = Reads(heartsCount: Option<int>, catalogue: seq<Banner>, unlocks: seq<UnlockRow>)

  /** `fetchUserBanners`; `fetched` is `None` when any of the three reads fails. */
  function FetchUserBanners(signedIn: bool, fetched: Option<Reads>): (f: Fetched)
    ensures f.NotSignedIn? <==> !signedIn
    ensures f.FetchFailed? <==> signedIn && fetched.None?
    ensures f.Loaded? ==>
              && f.stats.total == |f.banners| == |fetched.value.catalogue|
              && f.stats.unlocked <= f.stats.total
              && f.stats.userHearts == OrZero(fetched.value.heartsCount)
    ensures f.Loaded? ==> forall i :: 0 <= i < |f.banners| && i < |fetched.value.catalogue| ==>
              (f.banners[i].unlocked <==> IsUnlocked(fetched.value.catalogue[i], fetched.value.unlocks, f.stats.userHearts))
    // Every unlocked banner was either unlocked before or is auto-equipped now.
    ensures f.Loaded? ==>
              f.stats.unlocked == CountPreviouslyUnlocked(fetched.value.catalogue, fetched.value.unlocks) + |f.autoEquip|
    // The list is the combined catalogue, the count is of its unlocked
    // entries, and every newly unlocked banner is handed to auto-equip.
    ensures f.Loaded? ==>
              && f.banners == Combine(fetched.value.catalogue, fetched.value.unlocks, f.stats.userHearts)
              && f.stats.unlocked == CountUnlocked(f.banners)
              && f.autoEquip == AutoEquipIds(fetched.value.catalogue, fetched.value.unlocks, f.stats.userHearts)
  {
    if !signedIn then NotSignedIn
    else
      match fetched
      case None => FetchFailed
      case Some(rd) =>
        var hearts := OrZero(rd.heartsCount);
        var combined := Combine(rd.catalogue, rd.unlocks, hearts);
        UnlockedSplits(rd.catalogue, rd.unlocks, hearts);
        Loaded(combined, Stats(|combined|, CountUnlocked(combined), hearts), AutoEquipIds(rd.catalogue, rd.unlocks, hearts))
  }

  // ---------------------------------------------------------------------------
  // autoEquipBanner
  // ---------------------------------------------------------------------------

  /** A banner in one of the user's display slots. */
  datatype Equipped = Equipped(bannerId: string, position: int)

  /** The user's equipped banners (in position order) and unlock rows. */
  datatype EquipStore = EquipStore(equipped: seq<Equipped>, unlocks: seq<UnlockRow>)

  /** Which step of `autoEquipBanner`, if any, fails; the steps after a
      failure are skipped. */
  datatype EquipFailure = NoFailure | ReadFails | SlotWriteFails | UpsertFails

  /** The slot update: with fewer than two banners equipped the new one goes
      into position count+1; otherwise every row in position 1 takes it. */
  function EquipInto(equipped: seq<Equipped>, bannerId: string): (r: seq<Equipped>)
    ensures |equipped| < 2 ==> r == equipped + [Equipped(bannerId, |equipped| + 1)]
    ensures |equipped| >= 2 ==> |r| == |equipped|
    ensures |equipped| >= 2 ==> forall i :: 0 <= i < |r| ==>
              r[i].position == equipped[i].position
              && r[i].bannerId == (if equipped[i].position == 1 then bannerId else equipped[i].bannerId)
  {
    if |equipped| < 2 then equipped + [Equipped(bannerId, |equipped| + 1)]
    else seq(|equipped|, i requires 0 <= i < |equipped| =>
               if equipped[i].position == 1 then equipped[i].(bannerId := bannerId) else equipped[i])
  }

  predicate NoDuplicateUnlocks(rows: seq<UnlockRow>) {
    forall i, j :: 0 <= i < j < |rows| ==> rows[i].bannerId != rows[j].bannerId
  }

  /** The upsert on (user, banner): refreshes the row for `id` or adds one. */
  function Upsert(rows: seq<UnlockRow>, id: string, at: string): (r: seq<UnlockRow>)
    ensures NoDuplicateUnlocks(rows) ==> NoDuplicateUnlocks(r)
    ensures HasUnlockRow(r, id)
    ensures forall i :: 0 <= i < |rows| && rows[i].bannerId != id ==> rows[i] in r
    ensures forall i :: 0 <= i < |r| && r[i].bannerId != id ==> r[i] in rows
    ensures HasUnlockRow(rows, id) ==> |r| == |rows|
    ensures HasUnlockRow(rows, id) ==> forall i :: 0 <= i < |r| && r[i].bannerId == id ==> r[i].unlockedAt == at
    ensures !HasUnlockRow(rows, id) ==> r == rows + [UnlockRow(id, at)]
  {
    if HasUnlockRow(rows, id) then
      var r := seq(|rows|, i requires 0 <= i < |rows| =>
                     if rows[i].bannerId == id then UnlockRow(id, at) else rows[i]);
      var k :| 0 <= k < |rows| && rows[k].bannerId == id;
      assert r[k].bannerId == id;
      assert forall i :: 0 <= i < |rows| && rows[i].bannerId != id ==> rows[i] == r[i];
      r
    else
      var r := rows + [UnlockRow(id, at)];
      assert r[|rows|].bannerId == id;
      r
  }

  /** `autoEquipBanner`. */
  function AutoEquip(store: EquipStore, signedIn: bool, bannerId: string, at: string, failure: EquipFailure): (s: EquipStore)
    ensures !signedIn || failure == ReadFails ==> s == store
    ensures signedIn && failure == SlotWriteFails ==> s == store
    ensures signedIn && failure == UpsertFails ==> s.unlocks == store.unlocks
    ensures signedIn && failure == NoFailure ==> HasUnlockRow(s.unlocks, bannerId)
    ensures NoDuplicateUnlocks(store.unlocks) ==> NoDuplicateUnlocks(s.unlocks)
    ensures signedIn && (failure == NoFailure || failure == UpsertFails) ==>
              |s.equipped| == (if |store.equipped| < 2 then |store.equipped| + 1 else |store.equipped|)
    // Once the read succeeds the slot update is applied; the upsert follows when it succeeds.
    ensures signedIn && (failure == NoFailure || failure == UpsertFails) ==> s.equipped == EquipInto(store.equipped, bannerId)
    ensures signedIn && failure == NoFailure ==> s.unlocks == Upsert(store.unlocks, bannerId, at)
  {
    if !signedIn || failure == ReadFails || failure == SlotWriteFails then store
    else
      var equipped := EquipInto(store.equipped, bannerId);
      if failure == UpsertFails then EquipStore(equipped, store.unlocks)
      else EquipStore(equipped, Upsert(store.unlocks, bannerId, at))
  }

  /** Starting from an empty display, the first two auto-equips fill positions
      1 and 2, and a third replaces the banner in position 1. */
  lemma TwoSlots(a: string, b: string, c: string, unlocks: seq<UnlockRow>, at: string)
    ensures var s1 := AutoEquip(EquipStore([], unlocks), true, a, at, NoFailure);
            var s2 := AutoEquip(s1, true, b, at, NoFailure);
            var s3 := AutoEquip(s2, true, c, at, NoFailure);
            && s2.equipped == [Equipped(a, 1), Equipped(b, 2)]
            && s3.equipped == [Equipped(c, 1), Equipped(b, 2)]
  {
    var s1 := AutoEquip(EquipStore([], unlocks), true, a, at, NoFailure);
    assert s1.equipped == [Equipped(a, 1)];
    var s2 := AutoEquip(s1, true, b, at, NoFailure);
    assert s2.equipped == [Equipped(a, 1), Equipped(b, 2)];
    var s3 := AutoEquip(s2, true, c, at, NoFailure);
    assert s3.equipped[0] == Equipped(c, 1) && s3.equipped[1] == Equipped(b, 2);
  }
}
