/**
 * The job processor of queues/processRegistrationQueue.js: the sponsor is read, its level
 * checked, the slot searched, the member, the slot and the sponsor saved in that order, and the
 * statistics walked up from the slot; every thrown error reaches the queue wrapped in one message.
 */
module RegJob {
  import opened Common
  import opened Users
  import opened Wallets
  import opened Store
  import opened Tree
  import opened Unified
  import opened Descendants
  import opened RegSearch
  import opened Registration
  import UnifiedJob

  /** The data of a queued registration; an empty `parentId` is JavaScript's falsy "no sponsor". */
  datatype Signup = Signup(parentId: string, userId: string)

  const Activated: string := "Customer activated successfully."
  const LevelsReached: string := "15 Levels Reached."
  /** The message of the TypeError raised by `user.isActive = true` on a missing member. */
  const SetOnNull: string := "Cannot set properties of null (setting 'isActive')"

  /** The catch block: every error is re-thrown with the same prefix. */
  function Wrapped(message: string): string
  {
    "An error occurred while registering the customer: " + message
  }

  function NoSpace(userId: string): string
  {
    "Could not find space to add " + userId + "."
  }

  /**
   * What the model assumes of a job: members are stored under their ids, the links form a
   * forest, and a member to be placed is new to the tree and is not its own sponsor.
   */
  ghost predicate RegReady(db: Db, job: Signup)
  {
    UsersKeyed(db) && Acyclic(Shape(db.users)) &&
    (job.parentId != "" ==> Unplaced(Shape(db.users), job.userId) && job.parentId != job.userId)
  }

  // ---------------------------------------------------------------------------------------------
  // The three saves

  /** `user.isActive = true; user.parent = slot; await user.save()` on a copy read just before. */
  function MemberSaved(db: Db, m: string, slot: string, now: Date): (r: Db)
    requires UsersKeyed(db) && m in db.users
    ensures UsersKeyed(r) && r.users.Keys == db.users.Keys
    ensures Shape(r.users) == Shape(db.users)[m := Links(Some(slot), db.users[m].children)]
    ensures r.users[m].isActive && r.users[m].referredCustomers == db.users[m].referredCustomers
    ensures forall k :: k in db.users && k != m ==> r.users[k] == db.users[k]
    ensures forall k :: k in db.wallets ==> k in r.wallets && r.wallets[k] == db.wallets[k]
    ensures WalletsKeyed(db) ==> WalletsKeyed(r)
    ensures WalletsGrowAt(db, r, m) && (Unlinked(r, m) <==> Unlinked(db, m))
    ensures m in r.wallets <==> m in db.wallets || !db.users[m].hasWallet
  {
    var u := db.users[m];
    var doc := u.(isActive := true, parent := Some(slot));
    PatchFresh(u, doc);
    var r := SaveUser(db, u, doc, now);
    ShapeSet(db.users, m, r.users[m]);
    r
  }

  /**
   * `actualParent.children.push(m); await actualParent.save()` on the copy the search read, which
   * is still current: the slot's children gain m.
   */
  function SlotSaved(db: Db, slot: string, m: string, now: Date): (r: Db)
    requires UsersKeyed(db) && slot in db.users
    ensures UsersKeyed(r) && r.users.Keys == db.users.Keys
    ensures Shape(r.users) == Shape(db.users)[slot := Links(db.users[slot].parent, db.users[slot].children + [m])]
    ensures SameLinks(r.users[slot], db.users[slot].(children := db.users[slot].children + [m]))
    ensures forall k :: k in db.users && k != slot ==> r.users[k] == db.users[k]
    ensures forall k :: k in db.wallets ==> k in r.wallets && r.wallets[k] == db.wallets[k]
    ensures WalletsKeyed(db) ==> WalletsKeyed(r)
    ensures WalletsGrowAt(db, r, slot) && (Unlinked(r, slot) <==> Unlinked(db, slot))
    ensures slot in r.wallets <==> slot in db.wallets || !db.users[slot].hasWallet
  {
    var u := db.users[slot];
    var doc := u.(children := u.children + [m]);
    PatchFresh(u, doc);
    var r := SaveUser(db, u, doc, now);
    ShapeSet(db.users, slot, r.users[slot]);
    r
  }

  /**
   * `intendedParent.referredCustomers.push(m); await intendedParent.save()` on the copy read at
   * the start of the job. When the sponsor is the slot, that copy predates the slot's save, but
   * only the pushed referral is written, so the new child stays.
   */
  function SponsorSaved(db: Db, loaded: User, m: string, now: Date): (r: Db)
    requires UsersKeyed(db) && loaded.userId in db.users
    requires db.users[loaded.userId].referredCustomers == loaded.referredCustomers
    ensures UsersKeyed(r) && r.users.Keys == db.users.Keys && Shape(r.users) == Shape(db.users)
    ensures r.users[loaded.userId].referredCustomers == loaded.referredCustomers + [m]
    ensures r.users[loaded.userId].isActive == db.users[loaded.userId].isActive
    ensures forall k :: k in db.users && k != loaded.userId ==> r.users[k] == db.users[k]
    ensures forall k :: k in db.wallets ==> k in r.wallets && r.wallets[k] == db.wallets[k]
    ensures WalletsKeyed(db) ==> WalletsKeyed(r)
    ensures WalletsGrowAt(db, r, loaded.userId)
    ensures !SaveThrows(db, loaded) && db.users[loaded.userId].hasWallet == loaded.hasWallet ==> !Unlinked(r, loaded.userId)
  {
    var doc := loaded.(referredCustomers := loaded.referredCustomers + [m]);
    var r := SaveUser(db, loaded, doc, now);
    ShapeUpdate(db.users, loaded.userId, r.users[loaded.userId]);
    r
  }

  /** The member's save and then the slot's: the old tree with the member attached below the slot. */
  function Linked(db: Db, m: string, slot: string, now: Date): (r: Db)
    requires UsersKeyed(db) && m in db.users && slot in db.users && slot != m
    ensures UsersKeyed(r) && r.users.Keys == db.users.Keys
    ensures Shape(r.users) == AddLeaf(Shape(db.users), m, slot)
    ensures r.users[m].isActive
    ensures forall k :: k in db.users ==> r.users[k].referredCustomers == db.users[k].referredCustomers
    ensures forall k :: k in db.users && k != m ==> r.users[k].isActive == db.users[k].isActive
    ensures forall k :: k in db.users && k != m && k != slot ==> r.users[k] == db.users[k]
    ensures forall k :: k in db.wallets ==> k in r.wallets && r.wallets[k] == db.wallets[k]
    ensures forall k :: k in r.wallets && k != m && k != slot ==> k in db.wallets
    ensures WalletsKeyed(db) ==> WalletsKeyed(r)
  {
    var d1 := MemberSaved(db, m, slot, now);
    var d2 := SlotSaved(d1, slot, m, now);
    assert d1.users[slot] == db.users[slot];
    assert d2.users[m] == d1.users[m];
    forall k | k in db.users ensures d2.users[k].referredCustomers == db.users[k].referredCustomers {
      if k != slot { assert d2.users[k] == d1.users[k]; }
      if k != m { assert d1.users[k] == db.users[k]; }
    }
    forall k | k in db.users && k != m ensures d2.users[k].isActive == db.users[k].isActive {
      if k != slot { assert d2.users[k] == d1.users[k]; }
      assert d1.users[k] == db.users[k];
    }
    d2
  }

  /**
   * The three saves of a placement below slot: the old tree with the member attached below the
   * slot (again a forest), the member active, the sponsor's list extended.
   */
  function Saved3(db: Db, job: Signup, slot: string, now: Date): (r: Db)
    requires RegReady(db, job) && job.parentId != "" && job.parentId in db.users && job.userId in db.users
    requires slot in db.users && slot != job.userId
    ensures UsersKeyed(r) && r.users.Keys == db.users.Keys
    ensures Shape(r.users) == AddLeaf(Shape(db.users), job.userId, slot) && Acyclic(Shape(r.users))
    ensures r.users[job.userId].isActive
    ensures r.users[job.parentId].referredCustomers == db.users[job.parentId].referredCustomers + [job.userId]
    ensures forall k :: k in db.users && k != job.userId ==> r.users[k].isActive == db.users[k].isActive
    ensures forall k :: k in db.wallets ==> k in r.wallets && r.wallets[k] == db.wallets[k]
    ensures WalletsKeyed(db) ==> WalletsKeyed(r)
  {
    var m, sponsor := job.userId, db.users[job.parentId];
    var d2 := Linked(db, m, slot, now);
    var d3 := SponsorSaved(d2, sponsor, m, now);
    assert sponsor.userId == job.parentId;
    assert d3.users[m] == d2.users[m];
    forall k | k in db.users && k != m ensures d3.users[k].isActive == db.users[k].isActive {
      if k != job.parentId { assert d3.users[k] == d2.users[k]; }
    }
    AddLeafAcyclic(Shape(db.users), m, slot);
    d3
  }

  /**
   * Whether one of the three saves throws: the member or the slot has a stored wallet but no
   * wallet reference, or the sponsor has no wallet reference and a wallet is stored under it
   * or it is the slot, whose save has just created one (the sponsor's copy predates it).
   */
  predicate SavesThrow(db: Db, job: Signup, slot: string)
    requires job.parentId in db.users
  {
    Unlinked(db, job.userId) || Unlinked(db, slot) ||
    (!db.users[job.parentId].hasWallet && (job.parentId in db.wallets || job.parentId == slot))
  }

  /**
   * The three saves in order, the first that throws ending the job with what it wrote; the flag
   * is false then. The member's save gives `MemberSaved`, the slot's then `Linked`, the
   * sponsor's then `Saved3`.
   */
  function Saves(db: Db, job: Signup, slot: string, now: Date): (r: (Db, bool))
    requires RegReady(db, job) && job.parentId != "" && job.parentId in db.users && job.userId in db.users
    requires slot in db.users && slot != job.userId
    ensures r.1 ==> r.0 == Saved3(db, job, slot, now)
  {
    var m := job.userId;
    var d1 := MemberSaved(db, m, slot, now);
    if SaveThrows(db, db.users[m]) then (d1, false)
    else
      var d2 := Linked(db, m, slot, now);
      if SaveThrows(d1, d1.users[slot]) then (d2, false)
      else (Saved3(db, job, slot, now), !SaveThrows(d2, db.users[job.parentId]))
  }

  /** The three saves complete exactly when none of them throws. */
  lemma SavesComplete(db: Db, job: Signup, slot: string, now: Date)
    requires RegReady(db, job) && job.parentId != "" && job.parentId in db.users && job.userId in db.users
    requires slot in db.users && slot != job.userId
    ensures Saves(db, job, slot, now).1 <==> !SavesThrow(db, job, slot)
  {
    var m, sponsor := job.userId, db.users[job.parentId];
    var d1 := MemberSaved(db, m, slot, now);
    var d2 := Linked(db, m, slot, now);
    assert d2 == SlotSaved(d1, slot, m, now);
    assert SaveThrows(db, db.users[m]) <==> Unlinked(db, m);
    assert d1.users[slot] == db.users[slot] && (slot in d1.wallets <==> slot in db.wallets);
    assert SaveThrows(d1, d1.users[slot]) <==> Unlinked(db, slot);
    assert sponsor.userId == job.parentId && job.parentId != m;
    if !Unlinked(db, m) && !Unlinked(db, slot) {
      assert job.parentId in d2.wallets <==> job.parentId in db.wallets || (job.parentId == slot && !sponsor.hasWallet);
    }
  }

  /**
   * When the three saves complete, every member other than the new one, the slot and the
   * sponsor is unlinked afterwards exactly when it was before.
   */
  lemma SavedLinks(db: Db, job: Signup, slot: string, now: Date, k: string)
    requires RegReady(db, job) && job.parentId != "" && job.parentId in db.users && job.userId in db.users
    requires slot in db.users && slot != job.userId
    requires k in db.users && k != job.userId && k != slot && k != job.parentId
    ensures Unlinked(Saved3(db, job, slot, now), k) <==> Unlinked(db, k)
  {
    var m := job.userId;
    var d2 := Linked(db, m, slot, now);
    var d3 := SponsorSaved(d2, db.users[job.parentId], m, now);
    assert d3 == Saved3(db, job, slot, now);
    assert d3.users[k] == db.users[k];
    assert k in d3.wallets <==> k in db.wallets;
  }

  /** When none of the three saves throws, neither the slot nor the sponsor is unlinked afterwards. */
  lemma SavedLinked(db: Db, job: Signup, slot: string, now: Date)
    requires RegReady(db, job) && job.parentId != "" && job.parentId in db.users && job.userId in db.users
    requires slot in db.users && slot != job.userId && !SavesThrow(db, job, slot)
    ensures !Unlinked(Saved3(db, job, slot, now), slot) && !Unlinked(Saved3(db, job, slot, now), job.parentId)
  {
    var m, sponsor := job.userId, db.users[job.parentId];
    var d1 := MemberSaved(db, m, slot, now);
    var d2 := Linked(db, m, slot, now);
    assert d2 == SlotSaved(d1, slot, m, now);
    var d3 := SponsorSaved(d2, sponsor, m, now);
    assert d3 == Saved3(db, job, slot, now);
    assert d1.users[slot] == db.users[slot];
    assert sponsor.userId == job.parentId && job.parentId != m;
    if job.parentId != slot {
      assert d2.users[job.parentId] == db.users[job.parentId];
      assert d3.users[slot] == d2.users[slot];
    }
  }

  // ---------------------------------------------------------------------------------------------
  // The job

  /**
   * A job whose search found slot: the three saves, a throwing one ending the job with the
   * duplicate-key error, then the walk from the slot.
   */
  function PlacedRun(db: Db, job: Signup, slot: string, now: Date): (r: (Db, Result<string>))
    requires RegReady(db, job) && job.parentId != "" && job.parentId in db.users && job.userId in db.users
    requires slot in db.users && slot != job.userId
    ensures r.1.Ok? ==> r.1 == Ok(Activated)
    ensures SavesThrow(db, job, slot) ==> r.1 == Err(Wrapped(DuplicateKey))
  {
    var s := Saves(db, job, slot, now);
    SavesComplete(db, job, slot, now);
    if !s.1 then (s.0, Err(Wrapped(DuplicateKey)))
    else
      var w := RegWalk(s.0, slot, now);
      (w.0, if w.1 then Ok(Activated) else Err(Wrapped(TypeError)))
  }

  /** The job processor: the writes and what the job returns (`Ok`) or throws (`Err`). */
  function JobRun(db: Db, job: Signup, now: Date): (r: (Db, Result<string>))
    requires RegReady(db, job)
  {
    if job.parentId == "" then (db, Ok(Activated))
    else if job.parentId !in db.users then (db, Err(Wrapped(UnifiedJob.ParentNotFound(job.parentId))))
    else if db.users[job.parentId].level == 15 then (db, Ok(LevelsReached))
    else match SearchAt(db.users, job.parentId)
      case NoSpot => (db, Err(Wrapped(NoSpace(job.userId))))
      case Crash => (db, Err(Wrapped(TypeError)))
      case Found(slot) =>
        if job.userId !in db.users then (db, Err(Wrapped(SetOnNull)))
        else
          RegSearch.SlotNotMember(db.users, job.parentId, job.userId);
          PlacedRun(db, job, slot, now)
  }

  /** The member's, the slot's and the sponsor's saves, the first that throws ending the sequence. */
  method SaveThree(db: Db, job: Signup, slot: string, now: Date) returns (db': Db, ok: bool)
    requires RegReady(db, job) && job.parentId != "" && job.parentId in db.users && job.userId in db.users
    requires slot in db.users && slot != job.userId
    ensures (db', ok) == Saves(db, job, slot, now)
  {
    var user := db.users[job.userId];
    var throws := SaveThrows(db, user);
    db' := MemberSaved(db, job.userId, slot, now);
    if throws {
      return db', false;
    }
    throws := SaveThrows(db', db'.users[slot]);
    db' := SlotSaved(db', slot, job.userId, now);
    if throws {
      return db', false;
    }
    var intendedParent := db.users[job.parentId];
    throws := SaveThrows(db', intendedParent);
    db' := SponsorSaved(db', intendedParent, job.userId, now);
    return db', !throws;
  }

  /** The job processor step by step, every read and save in the order the source makes them. */
  method ProcessRegistration(db: Db, job: Signup, now: Date) returns (db': Db, r: Result<string>)
    requires RegReady(db, job)
    ensures (db', r) == JobRun(db, job, now)
  {
    db' := db;
    if job.parentId != "" {
      if job.parentId !in db.users {
        return db, Err(Wrapped(UnifiedJob.ParentNotFound(job.parentId)));
      }
      var intendedParent := db.users[job.parentId];
      if intendedParent.level == 15 {
        return db, Ok(LevelsReached);
      }
      var actualParent := RegSearch.FindNextAvailableSpot(db, job.parentId);
      if actualParent.NoSpot? {
        return db, Err(Wrapped(NoSpace(job.userId)));
      }
      if actualParent.Crash? {
        return db, Err(Wrapped(TypeError));
      }
      var slot := actualParent.slot;
      if job.userId !in db.users {
        return db, Err(Wrapped(SetOnNull));
      }
      RegSearch.SlotNotMember(db.users, job.parentId, job.userId);
      var saved;
      db', saved := SaveThree(db, job, slot, now);
      if !saved {
        return db', Err(Wrapped(DuplicateKey));
      }
      var ok;
      db', ok := Registration.UpdateAncestors(db', slot, now);
      if !ok {
        return db', Err(Wrapped(TypeError));
      }
    }
    r := Ok(Activated);
  }

  // ---------------------------------------------------------------------------------------------
  // What a job does

  /**
   * The outcomes that write nothing: without a sponsor the job reports success but the member
   * stays as it was (inactive if it was); a missing sponsor throws; a sponsor at level 15 stops
   * the job; a search that finds no slot, or throws, throws; and a missing member throws before
   * any save. Conversely a job writes something only once a slot was found for a stored member.
   */
  lemma JobOutcomes(db: Db, job: Signup, now: Date)
    requires RegReady(db, job)
    ensures job.parentId == "" ==> JobRun(db, job, now) == (db, Ok(Activated))
    ensures job.parentId != "" && job.parentId !in db.users ==>
      JobRun(db, job, now) == (db, Err(Wrapped("Parent with userId " + job.parentId + " not found.")))
    ensures job.parentId != "" && job.parentId in db.users && db.users[job.parentId].level == 15 ==>
      JobRun(db, job, now) == (db, Ok(LevelsReached))
    ensures (job.parentId != "" && job.parentId in db.users && db.users[job.parentId].level != 15 &&
      SearchAt(db.users, job.parentId).NoSpot?) ==> JobRun(db, job, now) == (db, Err(Wrapped(NoSpace(job.userId))))
    ensures JobRun(db, job, now).0 != db ==>
      job.parentId != "" && job.parentId in db.users && db.users[job.parentId].level != 15 &&
      SearchAt(db.users, job.parentId).Found? && job.userId in db.users
  {
  }

  /**
   * A placement: when the search from the sponsor finds a slot for a stored member, the slot lies
   * in the sponsor's subtree and had fewer than three children; when none of the three saves
   * throws, afterwards, whether or not the walk throws, the links are those of the old tree with
   * the member attached below the slot, the member is active, the sponsor's referred list has
   * gained the member, and no other member's activity changed.
   */
  lemma JobPlacement(db: Db, job: Signup, now: Date)
    requires RegReady(db, job) && job.parentId != "" && job.parentId in db.users && job.userId in db.users
    requires db.users[job.parentId].level != 15 && SearchAt(db.users, job.parentId).Found?
    ensures var slot := SearchAt(db.users, job.parentId).slot;
      slot in Sub(Shape(db.users), job.parentId) && slot in db.users && |db.users[slot].children| < 3
    ensures var slot, r := SearchAt(db.users, job.parentId).slot, JobRun(db, job, now).0;
      slot in db.users && !SavesThrow(db, job, slot) ==>
        Shape(r.users) == AddLeaf(Shape(db.users), job.userId, slot) && Acyclic(Shape(r.users)) &&
        r.users.Keys == db.users.Keys && r.users[job.userId].isActive &&
        r.users[job.parentId].referredCustomers == db.users[job.parentId].referredCustomers + [job.userId] &&
        (forall k :: k in db.users && k != job.userId ==> r.users[k].isActive == db.users[k].isActive)
  {
    SearchSound(db.users, job.parentId);
    RegSearch.SlotNotMember(db.users, job.parentId, job.userId);
    var slot := SearchAt(db.users, job.parentId).slot;
    SavesComplete(db, job, slot, now);
    if !SavesThrow(db, job, slot) {
      var d3 := Saved3(db, job, slot, now);
      var w := RegWalk(d3, slot, now);
      assert JobRun(db, job, now).0 == w.0;
      assert forall k :: k in d3.users ==> SameLinks(w.0.users[k], d3.users[k]);
    }
  }

  /**
   * What the saves leave when one throws: what the saves before it and the throwing save itself
   * wrote. When the member's save throws, the member is active with the slot as its parent,
   * though the slot does not list it as a child and the sponsor's referrals do not list it;
   * when the slot's throws, the member is attached but the sponsor's referrals do not list it;
   * when the sponsor's throws, all three writes were made.
   */
  lemma SavesThrowWrites(db: Db, job: Signup, slot: string, now: Date)
    requires RegReady(db, job) && job.parentId != "" && job.parentId in db.users && job.userId in db.users
    requires slot in db.users && slot != job.userId && SavesThrow(db, job, slot)
    ensures var r := Saves(db, job, slot, now).0;
      Unlinked(db, job.userId) ==>
        r.users[job.userId].isActive && r.users[job.userId].parent == Some(slot) &&
        job.userId !in r.users[slot].children &&
        r.users[job.parentId].referredCustomers == db.users[job.parentId].referredCustomers
    ensures var r := Saves(db, job, slot, now).0;
      !Unlinked(db, job.userId) && Unlinked(db, slot) ==>
        Shape(r.users) == AddLeaf(Shape(db.users), job.userId, slot) &&
        r.users[job.parentId].referredCustomers == db.users[job.parentId].referredCustomers
    ensures !Unlinked(db, job.userId) && !Unlinked(db, slot) ==> Saves(db, job, slot, now).0 == Saved3(db, job, slot, now)
  {
    SavesComplete(db, job, slot, now);
    var m := job.userId;
    var d1 := MemberSaved(db, m, slot, now);
    assert SaveThrows(db, db.users[m]) <==> Unlinked(db, m);
    assert d1.users[slot] == db.users[slot] && (slot in d1.wallets <==> slot in db.wallets);
    assert job.parentId != m;
    if Unlinked(db, m) {
      assert Saves(db, job, slot, now).0 == d1;
      assert m !in db.users[slot].children;
    } else if Unlinked(db, slot) {
      assert Saves(db, job, slot, now).0 == Linked(db, m, slot, now);
    }
  }

  /** A save that throws ends the job with the duplicate-key error and what the saves wrote; no level walk runs. */
  lemma JobSaveThrows(db: Db, job: Signup, now: Date)
    requires RegReady(db, job) && job.parentId != "" && job.parentId in db.users && job.userId in db.users
    requires db.users[job.parentId].level != 15 && SearchAt(db.users, job.parentId).Found?
    requires SavesThrow(db, job, SearchAt(db.users, job.parentId).slot)
    ensures var slot := SearchAt(db.users, job.parentId).slot;
      slot in db.users && slot != job.userId &&
      JobRun(db, job, now) == (Saves(db, job, slot, now).0, Err(Wrapped(DuplicateKey)))
  {
    SearchSound(db.users, job.parentId);
    RegSearch.SlotNotMember(db.users, job.parentId, job.userId);
    var slot := SearchAt(db.users, job.parentId).slot;
    SavesComplete(db, job, slot, now);
    assert JobRun(db, job, now) == PlacedRun(db, job, slot, now);
  }

  /** The links after a placement below slot, and the path the walk then takes. */
  lemma PlacedPath(db: Db, job: Signup, slot: string)
    requires RegReady(db, job) && job.parentId != "" && job.parentId in db.users && job.userId in db.users
    requires slot in db.users && slot != job.userId && slot in Sub(Shape(db.users), job.parentId)
    requires Proper(Shape(db.users))
    ensures Proper(AddLeaf(Shape(db.users), job.userId, slot)) && ParentAcyclic(AddLeaf(Shape(db.users), job.userId, slot))
    ensures Climb(AddLeaf(Shape(db.users), job.userId, slot), slot) == [slot] + Chain(Shape(db.users), slot)
    ensures job.parentId in Climb(AddLeaf(Shape(db.users), job.userId, slot), slot)
  {
    var t := Shape(db.users);
    AddLeafProper(t, job.userId, slot);
    AddLeafChain(t, job.userId, slot, slot);
    SubAbove(t, job.parentId, slot);
  }

  /**
   * On a well-formed tree a placement completes exactly when none of the three saves throws and
   * no member on the path from the slot to the root has a stored wallet but no wallet reference.
   * Then every member on that path, which includes the sponsor, holds counters that agree with
   * the new tree (its descendant count is the number of members below it) and the level the rule
   * gives from its children's levels. In particular the sponsor's referred count includes the new
   * member and the slot counts it as a child.
   */
  lemma JobRefreshesPath(db: Db, job: Signup, now: Date, k: string)
    requires RegReady(db, job) && job.parentId != "" && job.parentId in db.users && job.userId in db.users
    requires db.users[job.parentId].level != 15 && SearchAt(db.users, job.parentId).Found?
    requires Proper(Shape(db.users))
    ensures var slot := SearchAt(db.users, job.parentId).slot;
      slot in db.users &&
      (JobRun(db, job, now).1 == Ok(Activated) <==> !SavesThrow(db, job, slot) && NoneUnlinked(db, Climb(Shape(db.users), slot)))
    ensures var slot, r := SearchAt(db.users, job.parentId).slot, JobRun(db, job, now).0;
      var t' := AddLeaf(Shape(db.users), job.userId, slot);
      JobRun(db, job, now).1 == Ok(Activated) ==>
        slot in db.users && Acyclic(t') &&
        r.users[job.parentId].referredCustomersCount == |db.users[job.parentId].referredCustomers| + 1 &&
        r.users[slot].childCount == |db.users[slot].children| + 1 &&
        (k in Climb(t', slot) ==>
          k in r.users && LevelRule(r.users, k) && CountsFresh(r.users[k], t', k) &&
          r.users[k].totalDescendantsCount == DescendantCount(t', k))
  {
    SearchSound(db.users, job.parentId);
    RegSearch.SlotNotMember(db.users, job.parentId, job.userId);
    var slot := SearchAt(db.users, job.parentId).slot;
    SavesComplete(db, job, slot, now);
    if !SavesThrow(db, job, slot) {
      var d3 := Saved3(db, job, slot, now);
      assert JobRun(db, job, now) == PlacedRun(db, job, slot, now);
      PlacedPath(db, job, slot);
      RegWalkCompletes(d3, slot, now);
      PathLinks(db, job, slot, now);
      var t' := Shape(d3.users);
      if JobRun(db, job, now).1 == Ok(Activated) {
        assert job.parentId in Climb(t', slot) && slot in Climb(t', slot);
        RegWalkRefreshed(d3, slot, now, job.parentId);
        RegWalkRefreshed(d3, slot, now, slot);
        if k in Climb(t', slot) {
          RegWalkRefreshed(d3, slot, now, k);
        }
      }
    }
  }

  /**
   * When the three saves complete, the path from the slot is the same in the new tree, and a
   * member of it is unlinked afterwards exactly when it was before.
   */
  lemma PathLinks(db: Db, job: Signup, slot: string, now: Date)
    requires RegReady(db, job) && job.parentId != "" && job.parentId in db.users && job.userId in db.users
    requires slot in db.users && slot != job.userId && !SavesThrow(db, job, slot)
    ensures var d3 := Saved3(db, job, slot, now);
      Climb(Shape(d3.users), slot) == Climb(Shape(db.users), slot) &&
      (NoneUnlinked(d3, Climb(Shape(db.users), slot)) <==> NoneUnlinked(db, Climb(Shape(db.users), slot)))
  {
    var t := Shape(db.users);
    var d3 := Saved3(db, job, slot, now);
    AddLeafChain(t, job.userId, slot, slot);
    UnplacedOutside(t, job.userId, slot);
    SavedLinked(db, job, slot, now);
    forall a | a in Climb(t, slot) ensures Unlinked(d3, a) <==> Unlinked(db, a) {
      assert a != job.userId;
      if a != slot && a != job.parentId {
        SavedLinks(db, job, slot, now, a);
      }
    }
  }
}
