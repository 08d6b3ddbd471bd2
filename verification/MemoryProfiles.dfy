/** Profiles: create, delete, set default, assign chats, and the deep clone with remapped join tables. */
module MemoryProfiles {
  import opened Wrappers
  import opened MemoryTables
  import opened MemoryTrace
  import opened MemoryCascade
  import opened MemoryStatements

  // ---------- id maps and remapped edges ----------

  ghost predicate Injective(f: map<Id, Id>) {
    forall a, b :: a in f && b in f && f[a] == f[b] ==> a == b
  }

  /** The edges whose two ends are both mapped, moved along the maps. */
  function MapEdges(edges: set<(Id, Id)>, f: map<Id, Id>, g: map<Id, Id>): set<(Id, Id)> {
    set e | e in edges && e.0 in f && e.1 in g :: (f[e.0], g[e.1])
  }

  /** The edges whose first end is mapped, with that end moved. */
  function MapFirst(edges: set<(Id, Id)>, f: map<Id, Id>): set<(Id, Id)> {
    set e | e in edges && e.0 in f :: (f[e.0], e.1)
  }

  function OfProfile(t: Tables, profile: Id): set<Id> {
    set id | id in t.semantics && t.semantics[id].profile == profile
  }

  function MetasOfProfile(t: Tables, profile: Id): set<Id> {
    set id | id in t.metas && t.metas[id].profile == profile
  }

  function CloneSemantic(s: Semantic, profile: Id, now: int): Semantic {
    s.(profile := profile, created := now)
  }

  function CloneMeta(m: Meta, profile: Id, now: int): Meta {
    m.(profile := profile, created := now)
  }

  /** The new profile row: its own name, the given or the source's description, never the default. */
  function CloneRow(source: Profile, name: string, description: Option<string>): Profile {
    Profile(name, if description.Some? then description.value else source.description, false)
  }

  /** `t` is `s` with a copy of profile `source` under the fresh id `fresh`. */
  ghost predicate IsClone(s: Tables, t: Tables, source: Id, copy: Id, semMap: map<Id, Id>, metaMap: map<Id, Id>,
                          now: int) {
    && source in s.profiles
    && s.nextId <= copy < t.nextId && copy !in s.profiles
    && t.profiles.Keys == s.profiles.Keys + {copy} && (forall p :: p in s.profiles ==> t.profiles[p] == s.profiles[p])
    && !t.profiles[copy].isDefault
    && CopiedSemantics(s, t, source, copy, semMap, now)
    && CopiedMetas(s, t, source, copy, metaMap, now)
    && t.metaParents == s.metaParents + MapEdges(s.metaParents, metaMap, metaMap)
    && t.metaSources == s.metaSources + MapEdges(s.metaSources, metaMap, semMap)
    && t.summaryParents == s.summaryParents + MapEdges(s.summaryParents, semMap, semMap)
    && t.summaryMessages == s.summaryMessages + MapFirst(s.summaryMessages, semMap)
    && t.chats == s.chats && t.sessions == s.sessions && t.messages == s.messages
  }

  /** Exactly the rows of the source are copied; field by field, a copy has what its original has, in the new
      profile. */
  ghost predicate CopiesFields(s: Tables, t: Tables, source: Id, copy: Id, semMap: map<Id, Id>, metaMap: map<Id, Id>,
                               now: int) {
    && (forall a :: a in semMap <==> a in s.semantics && s.semantics[a].profile == source)
    && (forall a :: a in metaMap <==> a in s.metas && s.metas[a].profile == source)
    && (forall a :: a in semMap ==>
          semMap[a] in t.semantics && SameSemantic(s.semantics[a], t.semantics[semMap[a]], copy, now))
    && (forall a :: a in metaMap ==> metaMap[a] in t.metas && SameMeta(s.metas[a], t.metas[metaMap[a]], copy, now))
  }

  predicate SameSemantic(original: Semantic, copied: Semantic, profile: Id, now: int) {
    && copied.isSummary == original.isSummary && copied.depth == original.depth && copied.session == original.session
    && copied.earliest == original.earliest && copied.latest == original.latest
    && copied.profile == profile && copied.created == now
  }

  predicate SameMeta(original: Meta, copied: Meta, profile: Id, now: int) {
    && copied.kind == original.kind && copied.confidence == original.confidence && copied.depth == original.depth
    && copied.profile == profile && copied.created == now
  }

  lemma CloneCopiesFields(s: Tables, t: Tables, source: Id, copy: Id, semMap: map<Id, Id>, metaMap: map<Id, Id>,
                          now: int)
    requires IsClone(s, t, source, copy, semMap, metaMap, now)
    ensures CopiesFields(s, t, source, copy, semMap, metaMap, now)
  {
    hide Injective;
  }

  ghost predicate CopiedSemantics(s: Tables, t: Tables, source: Id, copy: Id, f: map<Id, Id>, now: int) {
    && f.Keys == OfProfile(s, source)
    && CopiedRows(s.semantics, t.semantics, f, s.nextId, t.nextId, (r: Semantic) => CloneSemantic(r, copy, now))
  }

  ghost predicate CopiedMetas(s: Tables, t: Tables, source: Id, copy: Id, f: map<Id, Id>, now: int) {
    && f.Keys == MetasOfProfile(s, source)
    && CopiedRows(s.metas, t.metas, f, s.nextId, t.nextId, (r: Meta) => CloneMeta(r, copy, now))
  }

  /** `t` is `s` plus a copy of every row in the id map, under pairwise distinct ids from [lo, hi). */
  ghost predicate CopiedRows<R(!new)>(s: map<Id, R>, t: map<Id, R>, f: map<Id, Id>, lo: Id, hi: Id, clone: R -> R) {
    && Injective(f)
    && (forall a :: a in f ==> lo <= f[a] < hi)
    && t.Keys == s.Keys + f.Values
    && (forall id :: id in s ==> id in t && t[id] == s[id])
    && (forall a :: a in f ==> a in s && f[a] in t && t[f[a]] == clone(s[a]))
  }

  lemma CopyRow<R(!new)>(s: map<Id, R>, t: map<Id, R>, f: map<Id, Id>, lo: Id, hi: Id, clone: R -> R, id: Id)
    requires CopiedRows(s, t, f, lo, hi, clone) && id in s && id !in f && lo <= hi
    requires forall x :: x in s ==> x < lo
    ensures id in t && t[id] == s[id]
    ensures CopiedRows(s, t[hi := clone(s[id])], f[id := hi], lo, hi + 1, clone)
  {
    ValuesExtend(f, id, hi);
  }

  lemma NoRowsCopied<R(!new)>(s: map<Id, R>, lo: Id, clone: R -> R)
    ensures CopiedRows(s, s, map[], lo, lo, clone)
  {}

  // ---------- the manager ----------

  /** At most one default profile, one as soon as there is a profile at all, and every chat has a profile. */
  ghost predicate ProfilesOk(t: Tables) {
    && (forall p, q :: p in t.profiles && q in t.profiles && t.profiles[p].isDefault && t.profiles[q].isDefault ==>
          p == q)
    && (t.profiles.Keys != {} ==> exists p :: p in t.profiles && t.profiles[p].isDefault)
    && (forall c :: c in t.chats ==> t.chats[c] in t.profiles)
    && (forall p, q :: p in t.profiles && q in t.profiles && t.profiles[p].name == t.profiles[q].name ==> p == q)
  }

  predicate NameTaken(t: Tables, name: string) {
    exists p :: p in t.profiles && t.profiles[p].name == name
  }

  class ProfileManager {
    const db: Database
    const maxProfiles: nat

    constructor (db: Database, maxProfiles: nat)
      ensures this.db == db && this.maxProfiles == maxProfiles
    {
      this.db := db;
      this.maxProfiles := maxProfiles;
    }

    /** Any statement can fail; a failed transaction leaves the database as it was. */
    method Statement() returns (ok: bool)
    {
      ok := *;
    }

    method CreateProfile(name: string, description: string) returns (r: Result<Id, string>)
      requires IdsUsed(db.t) && ProfilesOk(db.t)
      modifies db
      ensures IdsUsed(db.t) && ProfilesOk(db.t)
      ensures r.Err? ==> db.t == old(db.t)
      ensures r.Ok? ==> r.value !in old(db.t).profiles && |old(db.t).profiles| < maxProfiles
                        && !NameTaken(old(db.t), name)
      ensures r.Ok? ==> var row := Profile(name, description, |old(db.t).profiles| == 0);
        db.t == old(db.t).(profiles := old(db.t).profiles[r.value := row], nextId := old(db.t).nextId + 1)
    {
      if |db.t.profiles| >= maxProfiles {
        return Err("Profile limit reached");
      }
      var isDefault := |db.t.profiles| == 0;
      var ok := Statement();
      if !ok || NameTaken(db.t, name) {
        return Err("Failed to insert profile");
      }
      var id := db.t.nextId;
      assert isDefault ==> db.t.profiles.Keys == {};
      NewProfileOk(db.t, id, Profile(name, description, isDefault));
      db.t := db.t.(profiles := db.t.profiles[id := Profile(name, description, isDefault)], nextId := id + 1);
      return Ok(id);
    }

    method SetDefaultProfile(id: Id) returns (r: Result<(), string>)
      requires ProfilesOk(db.t)
      modifies db
      ensures ProfilesOk(db.t)
      ensures r.Err? ==> db.t == old(db.t)
      ensures r.Ok? ==> id in db.t.profiles && db.t.profiles[id].isDefault
      ensures db.t == old(db.t).(profiles := db.t.profiles) && db.t.profiles.Keys == old(db.t).profiles.Keys
      ensures forall p :: p in db.t.profiles ==>
                db.t.profiles[p] == old(db.t).profiles[p].(isDefault := db.t.profiles[p].isDefault)
    {
      if id !in db.t.profiles {
        return Err("Profile not found");
      }
      if db.t.profiles[id].isDefault {
        return Ok(());
      }
      var cleared := Statement();
      var set_ := Statement();
      if !cleared || !set_ {
        return Err("transaction rolled back");
      }
      var tx := db.t.profiles;
      tx := map p | p in tx :: tx[p].(isDefault := false);
      tx := tx[id := tx[id].(isDefault := true)];
      db.t := db.t.(profiles := tx);
      assert id in tx && tx[id].isDefault;
      return Ok(());
    }

    /** Returns the previous profile of the chat. */
    method AssignChat(chat: Id, profile: Id) returns (r: Result<Id, string>)
      requires ProfilesOk(db.t)
      modifies db
      ensures ProfilesOk(db.t)
      ensures r.Err? ==> db.t == old(db.t)
      ensures r.Ok? ==> chat in old(db.t).chats && r.value == old(db.t).chats[chat] && profile in db.t.profiles
      ensures r.Ok? ==> db.t == old(db.t).(chats := old(db.t).chats[chat := profile])
    {
      if profile !in db.t.profiles {
        return Err("Target profile not found");
      }
      if chat !in db.t.chats {
        return Err("Chat not found");
      }
      var previous := db.t.chats[chat];
      var ok := Statement();
      if !ok {
        return Err("update failed");
      }
      db.t := db.t.(chats := db.t.chats[chat := profile]);
      return Ok(previous);
    }

    /** Copies the semantic rows one by one, filling the id map. */
    method CloneSemantics(tx: Tables, source: Id, copy: Id, now: int) returns (r: Option<(Tables, map<Id, Id>)>)
      requires IdsUsed(tx)
      ensures r.Some? ==> var (u, f) := r.value;
        u == tx.(semantics := u.semantics, nextId := u.nextId) && u.nextId >= tx.nextId
        && CopiedSemantics(tx, u, source, copy, f, now)
    {
      hide CopiedRows;
      var rows := Enumerate(OfProfile(tx, source));
      var u := tx;
      var semanticIdMap: map<Id, Id> := map[];
      ghost var clone := (r: Semantic) => CloneSemantic(r, copy, now);
      NoRowsCopied(tx.semantics, tx.nextId, clone);
      for i := 0 to |rows|
        invariant u == tx.(semantics := u.semantics, nextId := u.nextId) && u.nextId >= tx.nextId
        invariant forall a :: a in semanticIdMap <==> a in rows[..i]
        invariant CopiedRows(tx.semantics, u.semantics, semanticIdMap, tx.nextId, u.nextId, clone)
      {
        var oldId := rows[i];
        assert oldId in rows && oldId in OfProfile(tx, source);
        assert oldId !in semanticIdMap;
        var ok := Statement();
        if !ok {
          return None;
        }
        CopyRow(tx.semantics, u.semantics, semanticIdMap, tx.nextId, u.nextId, clone, oldId);
        var id := u.nextId;
        u := u.(semantics := u.semantics[id := CloneSemantic(u.semantics[oldId], copy, now)], nextId := id + 1);
        semanticIdMap := semanticIdMap[oldId := id];
      }
      assert rows[..|rows|] == rows;
      return Some((u, semanticIdMap));
    }

    method CloneMetas(tx: Tables, source: Id, copy: Id, now: int) returns (r: Option<(Tables, map<Id, Id>)>)
      requires IdsUsed(tx)
      ensures r.Some? ==> var (u, f) := r.value;
        u == tx.(metas := u.metas, nextId := u.nextId) && u.nextId >= tx.nextId
        && CopiedMetas(tx, u, source, copy, f, now)
    {
      hide CopiedRows;
      var rows := Enumerate(MetasOfProfile(tx, source));
      var u := tx;
      var metaIdMap: map<Id, Id> := map[];
      ghost var clone := (r: Meta) => CloneMeta(r, copy, now);
      NoRowsCopied(tx.metas, tx.nextId, clone);
      for i := 0 to |rows|
        invariant u == tx.(metas := u.metas, nextId := u.nextId) && u.nextId >= tx.nextId
        invariant forall a :: a in metaIdMap <==> a in rows[..i]
        invariant CopiedRows(tx.metas, u.metas, metaIdMap, tx.nextId, u.nextId, clone)
      {
        var oldId := rows[i];
        assert oldId in rows && oldId in MetasOfProfile(tx, source);
        assert oldId !in metaIdMap;
        var ok := Statement();
        if !ok {
          return None;
        }
        CopyRow(tx.metas, u.metas, metaIdMap, tx.nextId, u.nextId, clone, oldId);
        var id := u.nextId;
        u := u.(metas := u.metas[id := CloneMeta(u.metas[oldId], copy, now)], nextId := id + 1);
        metaIdMap := metaIdMap[oldId := id];
      }
      assert rows[..|rows|] == rows;
      return Some((u, metaIdMap));
    }

    /** Re-inserts the edges that start in the profile, with both ends looked up in the id maps. */
    method RemapEdges(edges: set<(Id, Id)>, f: map<Id, Id>, g: map<Id, Id>) returns (r: Option<set<(Id, Id)>>)
      ensures r.Some? ==> r.value == MapEdges(edges, f, g)
    {
      var rows := Enumerate(set e | e in edges && e.0 in f);
      var result: set<(Id, Id)> := {};
      ghost var done: set<(Id, Id)> := {};
      for i := 0 to |rows|
        invariant forall e :: e in done <==> e in rows[..i]
        invariant result == MapEdges(done, f, g)
      {
        var e := rows[i];
        if e.0 in f && e.1 in g {
          var ok := Statement();
          if !ok {
            return None;
          }
          result := result + {(f[e.0], g[e.1])};
        }
        done := done + {e};
      }
      assert rows[..|rows|] == rows;
      assert forall e :: e in edges && e.0 in f && e.1 in g ==> e in done;
      assert MapEdges(done, f, g) == MapEdges(edges, f, g);
      return Some(result);
    }

    method RemapFirst(edges: set<(Id, Id)>, f: map<Id, Id>) returns (r: Option<set<(Id, Id)>>)
      ensures r.Some? ==> r.value == MapFirst(edges, f)
    {
      var rows := Enumerate(set e | e in edges && e.0 in f);
      var result: set<(Id, Id)> := {};
      ghost var done: set<(Id, Id)> := {};
      for i := 0 to |rows|
        invariant forall e :: e in done <==> e in rows[..i]
        invariant result == MapFirst(done, f)
      {
        var e := rows[i];
        if e.0 in f {
          var ok := Statement();
          if !ok {
            return None;
          }
          result := result + {(f[e.0], e.1)};
        }
        done := done + {e};
      }
      assert rows[..|rows|] == rows;
      assert forall e :: e in edges && e.0 in f ==> e in done;
      assert MapFirst(done, f) == MapFirst(edges, f);
      return Some(result);
    }

    /** The inserts of the clone, in their order; None when one of them fails. */
    method CopyProfile(s: Tables, source: Id, row: Profile, now: int)
      returns (r: Option<Tables>, ghost semMap: map<Id, Id>, ghost metaMap: map<Id, Id>)
      requires IdsUsed(s) && source in s.profiles && !row.isDefault
      ensures r.Some? ==> IsClone(s, r.value, source, s.nextId, semMap, metaMap, now)
      ensures r.Some? ==> r.value.profiles == s.profiles[s.nextId := row]
    {
      hide CopiedSemantics, CopiedMetas, Injective, MapEdges, MapFirst;
      semMap, metaMap := map[], map[];
      var copy := s.nextId;
      var t1 := s.(profiles := s.profiles[copy := row], nextId := copy + 1);
      var sem := CloneSemantics(t1, source, copy, now);
      if sem.None? {
        return None, semMap, metaMap;
      }
      var (t2, semanticIdMap) := sem.value;
      CopiedKeepsIds(t1, t2, source, copy, semanticIdMap, now);
      var met := CloneMetas(t2, source, copy, now);
      if met.None? {
        return None, semMap, metaMap;
      }
      var (t3, metaIdMap) := met.value;
      var messages := RemapFirst(s.summaryMessages, semanticIdMap);
      var summaries := RemapEdges(s.summaryParents, semanticIdMap, semanticIdMap);
      var sources := RemapEdges(s.metaSources, metaIdMap, semanticIdMap);
      var parents := RemapEdges(s.metaParents, metaIdMap, metaIdMap);
      if messages.None? || summaries.None? || sources.None? || parents.None? {
        return None, semMap, metaMap;
      }
      var t4 := t3.(summaryMessages := s.summaryMessages + messages.value,
                    summaryParents := s.summaryParents + summaries.value,
                    metaSources := s.metaSources + sources.value, metaParents := s.metaParents + parents.value);
      semMap, metaMap := semanticIdMap, metaIdMap;
      CopiedRowsCarryOver(s, t1, t2, t3, t4, source, copy, semanticIdMap, metaIdMap, now);
      return Some(t4), semMap, metaMap;
    }

    /** Deep clone in one transaction: either the whole copy is there, or nothing changed. */
    method CloneProfile(source: Id, newName: string, newDescription: Option<string>, now: int)
      returns (r: Result<Id, string>, ghost semMap: map<Id, Id>, ghost metaMap: map<Id, Id>)
      requires IdsUsed(db.t) && ProfilesOk(db.t)
      modifies db
      ensures r.Err? ==> db.t == old(db.t)
      ensures r.Ok? ==> IsClone(old(db.t), db.t, source, r.value, semMap, metaMap, now)
      ensures r.Ok? ==> CopiesFields(old(db.t), db.t, source, r.value, semMap, metaMap, now)
      ensures r.Ok? ==> var row := db.t.profiles[r.value];
        && row.name == newName && !row.isDefault
        && row.description == if newDescription.Some? then newDescription.value
                              else old(db.t).profiles[source].description
      ensures ProfilesOk(db.t)
    {
      hide CopiedSemantics, CopiedMetas, Injective, MapEdges, MapFirst;
      semMap, metaMap := map[], map[];
      if source !in db.t.profiles {
        return Err("Source profile not found"), semMap, metaMap;
      }
      if |db.t.profiles| >= maxProfiles {
        return Err("Profile limit reached"), semMap, metaMap;
      }
      var s := db.t;
      var ok := Statement();
      if !ok || NameTaken(s, newName) {
        return Err("transaction rolled back"), semMap, metaMap;
      }
      var copied;
      copied, semMap, metaMap := CopyProfile(s, source, CloneRow(s.profiles[source], newName, newDescription), now);
      if copied.None? {
        return Err("transaction rolled back"), semMap, metaMap;
      }
      CloneCopiesFields(s, copied.value, source, s.nextId, semMap, metaMap, now);
      hide NameTaken, CopiesFields;
      KeepsDefault(s, copied.value, s.nextId);
      db.t := copied.value;
      return Ok(s.nextId), semMap, metaMap;
    }

    /** Deletes a profile that is not the default and has no chats, statement by statement. A failure leaves the
        statements done so far; in every case other profiles keep their rows and links. */
    method DeleteProfile(id: Id, ghost cfg: ReflectionConfig)
      returns (r: Result<(), string>, ghost statements: nat)
      requires Inv(db.t, cfg) && ProfilesOk(db.t)
      modifies db
      ensures statements <= 7 && db.t == AfterDeletion(old(db.t), id, statements) && (r.Ok? <==> statements == 7)
      ensures Inv(db.t, cfg) && ProfilesOk(db.t) && Evolves(old(db.t), db.t)
      ensures OthersIntact(old(db.t), db.t, MetasOfProfile(old(db.t), id), OfProfile(old(db.t), id))
      ensures id !in old(db.t).profiles || old(db.t).profiles[id].isDefault || HasChats(old(db.t), id) ==>
                r.Err? && db.t == old(db.t)
      ensures r.Ok? ==> db.t.profiles == old(db.t).profiles - {id} && OfProfile(db.t, id) == {}
                        && MetasOfProfile(db.t, id) == {}
    {
      hide Inv, ProfilesOk, Evolves, OthersIntact, HasChats, WithoutMetaLinks, WithoutSourceLinks, WithoutSummaryLinks,
           WithoutMessageLinks;
      var M := MetasOfProfile(db.t, id);
      var S := OfProfile(db.t, id);
      ghost var s := db.t;
      hide AfterDeletion;
      statements := 0;
      NoneDeleted(s, id);
      NothingDeleted(s, M, S, cfg);
      if id !in db.t.profiles {
        return Err("Profile not found"), 0;
      }
      if db.t.profiles[id].isDefault {
        return Err("Cannot delete the default profile"), 0;
      }
      if HasChats(db.t, id) {
        return Err("Cannot delete profile with assigned chats"), 0;
      }
      var failed := Err("statement failed");
      var ok := Statement();
      if !ok { return failed, statements; }
      DeletedMetaLinks(s, db.t, M, S, cfg);
      db.t := WithoutMetaLinks(db.t, M);
      NextDeleted(s, id, 0);
      statements := 1;
      ok := Statement();
      if !ok { return failed, statements; }
      DeletedSourceLinks(s, db.t, M, S, cfg);
      db.t := WithoutSourceLinks(db.t, S);
      NextDeleted(s, id, 1);
      statements := 2;
      ok := Statement();
      if !ok { return failed, statements; }
      DeletedSummaryLinks(s, db.t, M, S, cfg);
      db.t := WithoutSummaryLinks(db.t, S);
      NextDeleted(s, id, 2);
      statements := 3;
      ok := Statement();
      if !ok { return failed, statements; }
      DeletedMessageLinks(s, db.t, M, S, cfg);
      db.t := WithoutMessageLinks(db.t, S);
      NextDeleted(s, id, 3);
      statements := 4;
      ok := Statement();
      if !ok { return failed, statements; }
      DeletedMetas(s, db.t, M, S, cfg);
      db.t := WithoutMetas(db.t, M);
      NextDeleted(s, id, 4);
      statements := 5;
      ghost var mid := db.t;
      ok := Statement();
      if !ok { return failed, statements; }
      DeletedSemantics(s, db.t, M, S, cfg);
      db.t := WithoutSemantics(db.t, S);
      NextDeleted(s, id, 5);
      statements := 6;
      ok := Statement();
      if !ok { return failed, statements; }
      RowsGone(mid, M, S);
      AllDeleted(s, db.t, id, cfg);
      db.t := db.t.(profiles := db.t.profiles - {id});
      NextDeleted(s, id, 6);
      return Ok(()), 7;
    }
  }

  // ---------- deletion, statement by statement ----------

  predicate HasChats(t: Tables, profile: Id) {
    exists c :: c in t.chats && t.chats[c] == profile
  }

  function WithoutMetaLinks(t: Tables, M: set<Id>): Tables {
    t.(metaSources := set e | e in t.metaSources && e.0 !in M)
  }

  function WithoutSourceLinks(t: Tables, S: set<Id>): Tables {
    t.(metaSources := set e | e in t.metaSources && e.1 !in S)
  }

  function WithoutSummaryLinks(t: Tables, S: set<Id>): Tables {
    t.(summaryParents := set e | e in t.summaryParents && e.0 !in S && e.1 !in S)
  }

  function WithoutMessageLinks(t: Tables, S: set<Id>): Tables {
    t.(summaryMessages := set e | e in t.summaryMessages && e.0 !in S)
  }

  /** Deleting meta rows; the join tables that refer to them cascade. */
  function WithoutMetas(t: Tables, M: set<Id>): Tables {
    WithoutMetaLinks(t, M).(metas := t.metas - M, metaParents := set e | e in t.metaParents && e.0 !in M && e.1 !in M)
  }

  /** Deleting semantic rows; the join tables that refer to them cascade. */
  function WithoutSemantics(t: Tables, S: set<Id>): Tables {
    WithoutSourceLinks(WithoutSummaryLinks(WithoutMessageLinks(t, S), S), S).(semantics := t.semantics - S)
  }

  /** Statement number `k` of the deletion of a profile with these meta and semantic rows. */
  function Deleted(t: Tables, k: nat, M: set<Id>, S: set<Id>, id: Id): Tables {
    match k
    case 1 => WithoutMetaLinks(t, M)
    case 2 => WithoutSourceLinks(t, S)
    case 3 => WithoutSummaryLinks(t, S)
    case 4 => WithoutMessageLinks(t, S)
    case 5 => WithoutMetas(t, M)
    case 6 => WithoutSemantics(t, S)
    case 7 => t.(profiles := t.profiles - {id})
    case _ => t
  }

  /** The tables after the first `k` statements of the deletion. */
  function AfterDeletion(s: Tables, id: Id, k: nat): Tables {
    if k == 0 then s else Deleted(AfterDeletion(s, id, k - 1), k, MetasOfProfile(s, id), OfProfile(s, id), id)
  }

  lemma NoneDeleted(s: Tables, id: Id)
    ensures AfterDeletion(s, id, 0) == s
  {}

  lemma NextDeleted(s: Tables, id: Id, k: nat)
    ensures AfterDeletion(s, id, k + 1) == Deleted(AfterDeletion(s, id, k), k + 1, MetasOfProfile(s, id),
                                                   OfProfile(s, id), id)
  {}

  /** Rows outside M and S, and the links between them, are still there; nothing is new. */
  ghost predicate OthersIntact(s: Tables, t: Tables, M: set<Id>, S: set<Id>) {
    && (forall m :: m in t.metas ==> m in s.metas && t.metas[m] == s.metas[m])
    && (forall m :: m in s.metas && m !in M ==> m in t.metas)
    && (forall x :: x in t.semantics ==> x in s.semantics && t.semantics[x] == s.semantics[x])
    && (forall x :: x in s.semantics && x !in S ==> x in t.semantics)
    && (forall e :: e in t.metaParents ==> e in s.metaParents)
       && (forall e :: e in s.metaParents && e.0 !in M && e.1 !in M ==> e in t.metaParents)
    && (forall e :: e in t.metaSources ==> e in s.metaSources)
       && (forall e :: e in s.metaSources && e.0 !in M && e.1 !in S ==> e in t.metaSources)
    && (forall e :: e in t.summaryParents ==> e in s.summaryParents)
    && (forall e :: e in s.summaryParents && e.0 !in S && e.1 !in S ==> e in t.summaryParents)
    && (forall e :: e in t.summaryMessages ==> e in s.summaryMessages)
       && (forall e :: e in s.summaryMessages && e.0 !in S ==> e in t.summaryMessages)
  }

  /** A state on the way from `s` to the deleted profile. */
  ghost predicate Deleting(s: Tables, t: Tables, M: set<Id>, S: set<Id>, cfg: ReflectionConfig) {
    && OthersIntact(s, t, M, S) && Inv(t, cfg) && Evolves(s, t)
    && t.profiles == s.profiles && t.chats == s.chats && t.nextId == s.nextId
    && (ProfilesOk(s) ==> ProfilesOk(t))
  }

  lemma NothingDeleted(s: Tables, M: set<Id>, S: set<Id>, cfg: ReflectionConfig)
    requires Inv(s, cfg)
    ensures Deleting(s, s, M, S, cfg)
  {}

  lemma IntactTrans(s: Tables, t: Tables, u: Tables, M: set<Id>, S: set<Id>)
    requires OthersIntact(s, t, M, S) && OthersIntact(t, u, M, S)
    ensures OthersIntact(s, u, M, S)
  {}

  lemma IntactEvolves(t: Tables, u: Tables, M: set<Id>, S: set<Id>, cfg: ReflectionConfig)
    requires Inv(t, cfg) && OthersIntact(t, u, M, S) && u.profiles == t.profiles && u.nextId == t.nextId
    requires forall p, c :: (p, c) in u.metaParents ==> p in u.metas && c in u.metas
    requires forall m, x :: (m, x) in u.metaSources ==> m in u.metas && x in u.semantics
    ensures Inv(u, cfg) && Evolves(t, u)
  {
    forall p, c | (p, c) in u.metaParents ensures GoodEdge(u, p, c) { assert GoodEdge(t, p, c); }
    forall m, x | (m, x) in u.metaSources ensures GoodSource(u, m, x) { assert GoodSource(t, m, x); }
  }

  /** A deletion statement keeps the invariant and everything that belongs to other profiles. */
  lemma DeletionStep(s: Tables, t: Tables, u: Tables, M: set<Id>, S: set<Id>, cfg: ReflectionConfig)
    requires Inv(s, cfg) && Deleting(s, t, M, S, cfg) && OthersIntact(t, u, M, S)
    requires u.profiles == t.profiles && u.chats == t.chats && u.nextId == t.nextId
    requires forall p, c :: (p, c) in u.metaParents ==> p in u.metas && c in u.metas
    requires forall m, x :: (m, x) in u.metaSources ==> m in u.metas && x in u.semantics
    ensures Deleting(s, u, M, S, cfg)
  {
    IntactEvolves(t, u, M, S, cfg);
    IntactTrans(s, t, u, M, S);
    hide OthersIntact, Bounded, Evolves, Layered;
    EvolvesTrans(s, t, u);
  }

  lemma DeletedMetaLinks(s: Tables, t: Tables, M: set<Id>, S: set<Id>, cfg: ReflectionConfig)
    requires Inv(s, cfg) && Deleting(s, t, M, S, cfg)
    ensures Deleting(s, WithoutMetaLinks(t, M), M, S, cfg)
  {
    KnownEnds(t, cfg);
    DeletionStep(s, t, WithoutMetaLinks(t, M), M, S, cfg);
  }

  lemma DeletedSourceLinks(s: Tables, t: Tables, M: set<Id>, S: set<Id>, cfg: ReflectionConfig)
    requires Inv(s, cfg) && Deleting(s, t, M, S, cfg)
    ensures Deleting(s, WithoutSourceLinks(t, S), M, S, cfg)
  {
    KnownEnds(t, cfg);
    DeletionStep(s, t, WithoutSourceLinks(t, S), M, S, cfg);
  }

  lemma DeletedSummaryLinks(s: Tables, t: Tables, M: set<Id>, S: set<Id>, cfg: ReflectionConfig)
    requires Inv(s, cfg) && Deleting(s, t, M, S, cfg)
    ensures Deleting(s, WithoutSummaryLinks(t, S), M, S, cfg)
  {
    KnownEnds(t, cfg);
    DeletionStep(s, t, WithoutSummaryLinks(t, S), M, S, cfg);
  }

  lemma DeletedMessageLinks(s: Tables, t: Tables, M: set<Id>, S: set<Id>, cfg: ReflectionConfig)
    requires Inv(s, cfg) && Deleting(s, t, M, S, cfg)
    ensures Deleting(s, WithoutMessageLinks(t, S), M, S, cfg)
  {
    KnownEnds(t, cfg);
    DeletionStep(s, t, WithoutMessageLinks(t, S), M, S, cfg);
  }

  lemma DeletedMetas(s: Tables, t: Tables, M: set<Id>, S: set<Id>, cfg: ReflectionConfig)
    requires Inv(s, cfg) && Deleting(s, t, M, S, cfg)
    ensures Deleting(s, WithoutMetas(t, M), M, S, cfg)
  {
    KnownEnds(t, cfg);
    DeletionStep(s, t, WithoutMetas(t, M), M, S, cfg);
  }

  lemma DeletedSemantics(s: Tables, t: Tables, M: set<Id>, S: set<Id>, cfg: ReflectionConfig)
    requires Inv(s, cfg) && Deleting(s, t, M, S, cfg)
    ensures Deleting(s, WithoutSemantics(t, S), M, S, cfg)
  {
    KnownEnds(t, cfg);
    DeletionStep(s, t, WithoutSemantics(t, S), M, S, cfg);
  }

  lemma RowsGone(t: Tables, M: set<Id>, S: set<Id>)
    requires t.metas.Keys !! M
    ensures var u := WithoutSemantics(t, S); u.metas.Keys !! M && u.semantics.Keys !! S
  {}

  lemma KnownEnds(t: Tables, cfg: ReflectionConfig)
    requires Inv(t, cfg)
    ensures forall p, c :: (p, c) in t.metaParents ==> p in t.metas && c in t.metas
    ensures forall m, x :: (m, x) in t.metaSources ==> m in t.metas && x in t.semantics
  {
    forall p, c | (p, c) in t.metaParents ensures p in t.metas && c in t.metas { assert GoodEdge(t, p, c); }
    forall m, x | (m, x) in t.metaSources ensures m in t.metas && x in t.semantics { assert GoodSource(t, m, x); }
  }

  /** After the last statement the profile and everything in it is gone. */
  lemma AllDeleted(s: Tables, t: Tables, id: Id, cfg: ReflectionConfig)
    requires ProfilesOk(s) && id in s.profiles && !s.profiles[id].isDefault && !HasChats(s, id)
    requires Deleting(s, t, MetasOfProfile(s, id), OfProfile(s, id), cfg)
    requires t.metas.Keys !! MetasOfProfile(s, id) && t.semantics.Keys !! OfProfile(s, id)
    ensures var u := t.(profiles := t.profiles - {id});
      && ProfilesOk(u) && OfProfile(u, id) == {} && MetasOfProfile(u, id) == {}
      && OthersIntact(s, u, MetasOfProfile(s, id), OfProfile(s, id)) && Inv(u, cfg) && Evolves(s, u)
  {
    var u := t.(profiles := t.profiles - {id});
    hide Layered, Bounded, ProfilesOk, IdsUsed, OthersIntact, Evolves, HasChats, OfProfile, MetasOfProfile, Inv;
    SameMetaTables(t, u, cfg);
    SameRows(s, t, u, MetasOfProfile(s, id), OfProfile(s, id));
    ProfileGone(s, u, id);
    NoRowsOf(s, u, id);
  }

  lemma SameRows(s: Tables, t: Tables, u: Tables, M: set<Id>, S: set<Id>)
    requires OthersIntact(s, t, M, S) && Evolves(s, t) && u == t.(profiles := u.profiles)
    ensures OthersIntact(s, u, M, S) && Evolves(s, u)
  {}

  lemma ProfileGone(s: Tables, u: Tables, id: Id)
    requires ProfilesOk(s) && id in s.profiles && !s.profiles[id].isDefault && !HasChats(s, id)
    requires u.profiles == s.profiles - {id} && u.chats == s.chats
    ensures ProfilesOk(u)
  {
    var p :| p in s.profiles && s.profiles[p].isDefault;
    assert p in u.profiles && u.profiles[p].isDefault;
  }

  lemma NoRowsOf(s: Tables, u: Tables, id: Id)
    requires OthersIntact(s, u, MetasOfProfile(s, id), OfProfile(s, id))
    requires u.metas.Keys !! MetasOfProfile(s, id) && u.semantics.Keys !! OfProfile(s, id)
    ensures OfProfile(u, id) == {} && MetasOfProfile(u, id) == {}
  {}

  lemma SameMetaTables(t: Tables, u: Tables, cfg: ReflectionConfig)
    requires Inv(t, cfg) && u == t.(profiles := u.profiles) && u.profiles.Keys <= t.profiles.Keys
    ensures Inv(u, cfg)
  {
    forall p, c | (p, c) in u.metaParents ensures GoodEdge(u, p, c) { assert GoodEdge(t, p, c); }
    forall m, x | (m, x) in u.metaSources ensures GoodSource(u, m, x) { assert GoodSource(t, m, x); }
  }

  lemma ValuesExtend(m: map<Id, Id>, k: Id, v: Id)
    requires k !in m
    ensures m[k := v].Values == m.Values + {v}
  {
    var n := m[k := v];
    forall x | x in m.Values ensures x in n.Values {
      var a :| a in m && m[a] == x;
      assert a in n && n[a] == x;
    }
    assert k in n && n[k] == v;
  }

  lemma CopiedKeepsIds(s: Tables, t: Tables, source: Id, copy: Id, f: map<Id, Id>, now: int)
    requires IdsUsed(s) && CopiedSemantics(s, t, source, copy, f, now)
    requires t == s.(semantics := t.semantics, nextId := t.nextId)
    requires t.nextId >= s.nextId
    ensures IdsUsed(t)
  {}

  lemma CopiedRowsCarryOver(s: Tables, t1: Tables, t2: Tables, t3: Tables, t4: Tables, source: Id, copy: Id,
                            f: map<Id, Id>, g: map<Id, Id>, now: int)
    requires IdsUsed(s) && t1 == s.(profiles := t1.profiles, nextId := t1.nextId) && t1.nextId >= s.nextId
    requires t2 == t1.(semantics := t2.semantics, nextId := t2.nextId) && t2.nextId >= t1.nextId
    requires CopiedSemantics(t1, t2, source, copy, f, now)
    requires t3 == t2.(metas := t3.metas, nextId := t3.nextId) && t3.nextId >= t2.nextId
    requires CopiedMetas(t2, t3, source, copy, g, now)
    requires t4.semantics == t3.semantics && t4.metas == t3.metas && t4.nextId == t3.nextId
    ensures CopiedSemantics(s, t4, source, copy, f, now) && CopiedMetas(s, t4, source, copy, g, now)
  {
    SemanticsCarryOver(s, t1, t2, t4, source, copy, f, now);
    MetasCarryOver(s, t2, t3, t4, source, copy, g, now);
    hide CopiedRows;
  }

  lemma SemanticsCarryOver(s: Tables, t1: Tables, t2: Tables, t4: Tables, source: Id, copy: Id, f: map<Id, Id>,
                           now: int)
    requires t1.semantics == s.semantics && s.nextId <= t1.nextId && t2.nextId <= t4.nextId
    requires t4.semantics == t2.semantics && CopiedSemantics(t1, t2, source, copy, f, now)
    ensures CopiedSemantics(s, t4, source, copy, f, now)
  {
    hide Injective;
  }

  lemma MetasCarryOver(s: Tables, t2: Tables, t3: Tables, t4: Tables, source: Id, copy: Id, g: map<Id, Id>, now: int)
    requires t2.metas == s.metas && s.nextId <= t2.nextId && t3.nextId <= t4.nextId
    requires t4.metas == t3.metas && CopiedMetas(t2, t3, source, copy, g, now)
    ensures CopiedMetas(s, t4, source, copy, g, now)
  {
    hide Injective;
  }

  lemma NewProfileOk(t: Tables, id: Id, row: Profile)
    requires ProfilesOk(t) && id !in t.profiles && !NameTaken(t, row.name) && (row.isDefault <==> t.profiles.Keys == {})
    ensures ProfilesOk(t.(profiles := t.profiles[id := row], nextId := id + 1))
  {
    var u := t.(profiles := t.profiles[id := row], nextId := id + 1);
    if row.isDefault {
      assert u.profiles[id].isDefault;
    } else {
      var p :| p in t.profiles && t.profiles[p].isDefault;
      assert p in u.profiles && u.profiles[p].isDefault;
    }
  }

  lemma KeepsDefault(s: Tables, t: Tables, copy: Id)
    requires ProfilesOk(s) && s.profiles.Keys != {} && copy !in s.profiles && t.chats == s.chats
    requires copy in t.profiles && !t.profiles[copy].isDefault && !NameTaken(s, t.profiles[copy].name)
    requires t.profiles == s.profiles[copy := t.profiles[copy]]
    ensures ProfilesOk(t)
  {
    var p :| p in s.profiles && s.profiles[p].isDefault;
    assert p in t.profiles && t.profiles[p].isDefault;
  }
}
