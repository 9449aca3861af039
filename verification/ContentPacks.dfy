/**
 Content pack versions: stored rows, the many in-memory instances that edit and
 save them, the guard that freezes a published row, and what a device is served.
 */
module ContentPacks {
  import opened Wrappers

  type PackId = nat
  type RowId = nat
  type InstanceId = nat
  type Time = int

  datatype Columns = Columns(
    pack: PackId,
    version: nat,
    objectKey: string,
    sizeBytes: int,
    checksum: string,
    signature: string,
    publishedAt: Option<Time>,
    revokedAt: Option<Time>,
    changelog: string)

  datatype Field =
    FPack | FVersion | FObjectKey | FSizeBytes | FChecksum | FSignature | FPublishedAt | FRevokedAt | FChangelog

  /** A model object in some process: its primary key, once it has one, and its own copy of the columns. */
  datatype Instance = Instance(pk: Option<RowId>, cols: Columns)

  type Rows = map<RowId, Columns>

  datatype State = State(rows: Rows, live: map<InstanceId, Instance>)

  datatype SaveError = Immutable | NoPrimaryKey | Duplicate

  predicate Taken(rows: Rows, pack: PackId, version: nat, except: Option<RowId>) {
    exists id :: id in rows && except != Some(id) && rows[id].pack == pack && rows[id].version == version
  }

  /** The named columns of `mine` over those of `stored`. */
  function Written(stored: Columns, mine: Columns, fields: set<Field>): Columns {
    Columns(
      if FPack in fields then mine.pack else stored.pack,
      if FVersion in fields then mine.version else stored.version,
      if FObjectKey in fields then mine.objectKey else stored.objectKey,
      if FSizeBytes in fields then mine.sizeBytes else stored.sizeBytes,
      if FChecksum in fields then mine.checksum else stored.checksum,
      if FSignature in fields then mine.signature else stored.signature,
      if FPublishedAt in fields then mine.publishedAt else stored.publishedAt,
      if FRevokedAt in fields then mine.revokedAt else stored.revokedAt,
      if FChangelog in fields then mine.changelog else stored.changelog)
  }

  datatype Value = Number(n: int) | Text(s: string) | Moment(t: Option<Time>)

  /** One column, by its name. */
  function Col(c: Columns, f: Field): Value {
    match f
    case FPack => Number(c.pack)
    case FVersion => Number(c.version)
    case FObjectKey => Text(c.objectKey)
    case FSizeBytes => Number(c.sizeBytes)
    case FChecksum => Text(c.checksum)
    case FSignature => Text(c.signature)
    case FPublishedAt => Moment(c.publishedAt)
    case FRevokedAt => Moment(c.revokedAt)
    case FChangelog => Text(c.changelog)
  }

  const ALL := {FPack, FVersion, FObjectKey, FSizeBytes, FChecksum, FSignature, FPublishedAt, FRevokedAt, FChangelog}

  // ---------------------------------------------------------------- save

  /** A saved instance that is published in memory may only write `revoked_at`. */
  predicate Refused(i: Instance, updateFields: Option<set<Field>>) {
    && i.pk.Some? && i.cols.publishedAt.Some?
    && (updateFields.GetOr({}) == {} || !(updateFields.GetOr({}) <= {FRevokedAt}))
  }

  datatype Saved = Saved(rows: Rows, inst: Instance)

  /** The guard, then the framework's save: nothing to write, an insert, or an update of the named columns. */
  ghost function Save(rows: Rows, i: Instance, updateFields: Option<set<Field>>, freshPk: RowId)
    : Result<Saved, SaveError>
    requires i.pk.Some? ==> i.pk.value in rows
  {
    if Refused(i, updateFields) then Err(Immutable)
    else if updateFields == Some({}) then Ok(Saved(rows, i))
    else if i.pk.None? then
      if updateFields.Some? then Err(NoPrimaryKey)
      else if Taken(rows, i.cols.pack, i.cols.version, None) then Err(Duplicate)
      else Ok(Saved(rows[freshPk := i.cols], i.(pk := Some(freshPk))))
    else
      var row := Written(rows[i.pk.value], i.cols, updateFields.GetOr(ALL));
      if Taken(rows, row.pack, row.version, i.pk) then Err(Duplicate)
      else Ok(Saved(rows[i.pk.value := row], i))
  }

  class VersionTable {
    var rows: Rows

    constructor ()
      ensures rows == map[]
    {
      rows := map[];
    }
  }

  class ContentPackVersion {
    var pk: Option<RowId>
    var cols: Columns

    constructor (cols: Columns)
      ensures pk == None && this.cols == cols
    {
      pk := None;
      this.cols := cols;
    }

    function Value(): Instance
      reads this
    {
      Instance(pk, cols)
    }

    /**
     A whole save that succeeds stores every column in its own row only.  On a
     published instance, saving `revoked_at` alone succeeds and writes that column
     alone.  When a save fails is told by `SaveFailsIff`.
     */
    method SaveTo(table: VersionTable, updateFields: Option<set<Field>>, freshPk: RowId)
      returns (error: Option<SaveError>)
      requires (pk.Some? ==> pk.value in table.rows) && freshPk !in table.rows
      modifies this`pk, table`rows
      ensures match Save(old(table.rows), old(Value()), updateFields, freshPk)
              case Ok(s) => error == None && table.rows == s.rows && Value() == s.inst
              case Err(e) => error == Some(e) && table.rows == old(table.rows) && Value() == old(Value())
      ensures updateFields == None && error == None ==>
                && cols == old(cols) && pk == Some(old(pk).GetOr(freshPk))
                && table.rows == old(table.rows)[pk.value := cols]
      ensures && updateFields == Some({FRevokedAt}) && old(pk).Some? && old(cols).publishedAt.Some?
              && UniqueVersions(old(table.rows)) ==>
                && error == None && pk == old(pk)
                && table.rows == old(table.rows)[pk.value := old(table.rows)[pk.value].(revokedAt := cols.revokedAt)]
    {
      if pk.Some? && cols.publishedAt.Some? {
        var allowed := {FRevokedAt};
        var fields := updateFields.GetOr({});
        if fields == {} || !(fields <= allowed) {
          return Some(Immutable);
        }
      }
      if updateFields == Some({}) {
        return None;
      }
      if pk.None? {
        if updateFields.Some? {
          return Some(NoPrimaryKey);
        }
        if exists id :: id in table.rows && table.rows[id].pack == cols.pack && table.rows[id].version == cols.version {
          return Some(Duplicate);
        }
        table.rows := table.rows[freshPk := cols];
        pk := Some(freshPk);
      } else {
        var row := Written(table.rows[pk.value], cols, updateFields.GetOr(ALL));
        if exists id :: id in table.rows && pk != Some(id) && table.rows[id].pack == row.pack
            && table.rows[id].version == row.version {
          return Some(Duplicate);
        }
        table.rows := table.rows[pk.value := row];
      }
      return None;
    }
  }

  // ---------------------------------------------------------------- when a save fails, and what it writes

  /** The instance would write the (pack, version) of another row. */
  ghost predicate Collides(rows: Rows, id: RowId, i: Instance, updateFields: Option<set<Field>>, other: RowId)
    requires id in rows
  {
    && other in rows && other != id
    && rows[other].pack == (if updateFields == None || FPack in updateFields.value then i.cols.pack else rows[id].pack)
    && rows[other].version ==
       (if updateFields == None || FVersion in updateFields.value then i.cols.version else rows[id].version)
  }

  /**
   A stored instance that is published in memory is refused all but a save of
   `revoked_at`; without a primary key only a whole save, or one of no fields, is
   possible; and a save collides with another row's (pack, version).  Nothing else fails.
   */
  lemma {:induction false} SaveFailsIff(rows: Rows, i: Instance, updateFields: Option<set<Field>>, freshPk: RowId)
    requires i.pk.Some? ==> i.pk.value in rows
    ensures var saved := Save(rows, i, updateFields, freshPk);
            var immutable := i.pk.Some? && i.cols.publishedAt.Some? && updateFields != Some({FRevokedAt});
            && (saved == Err(Immutable) <==> immutable)
            && (saved == Err(NoPrimaryKey) <==> i.pk == None && updateFields.Some? && updateFields.value != {})
            && (saved == Err(Duplicate) <==>
                  || (&& i.pk == None && updateFields == None
                      && exists id :: id in rows && rows[id].pack == i.cols.pack && rows[id].version == i.cols.version)
                  || (&& i.pk.Some? && !immutable && updateFields != Some({})
                      && exists id :: Collides(rows, i.pk.value, i, updateFields, id)))
  {
    var fields := updateFields.GetOr({});
    assert fields != {} && fields <= {FRevokedAt} ==> fields == {FRevokedAt};
    if i.pk.Some? && !Refused(i, updateFields) && updateFields != Some({}) {
      DuplicateIff(rows, i, updateFields, freshPk);
    }
  }

  lemma DuplicateIff(rows: Rows, i: Instance, updateFields: Option<set<Field>>, freshPk: RowId)
    requires i.pk.Some? && i.pk.value in rows && !Refused(i, updateFields) && updateFields != Some({})
    ensures Save(rows, i, updateFields, freshPk) == Err(Duplicate) <==>
            exists id :: Collides(rows, i.pk.value, i, updateFields, id)
  {
    var row := Written(rows[i.pk.value], i.cols, updateFields.GetOr(ALL));
    forall id
      ensures Collides(rows, i.pk.value, i, updateFields, id) <==>
              id in rows && i.pk != Some(id) && rows[id].pack == row.pack && rows[id].version == row.version
    {
    }
  }

  /**
   A version is created, published or not, exactly when its pack and version are
   new; a draft is saved whole exactly when no other row has them.
   */
  lemma {:induction false} WholeSaveSucceedsIff(rows: Rows, i: Instance, freshPk: RowId)
    requires i.pk.Some? ==> i.pk.value in rows && i.cols.publishedAt == None
    ensures Save(rows, i, None, freshPk).Ok? <==>
            forall id :: id in rows && i.pk != Some(id) ==>
                           rows[id].pack != i.cols.pack || rows[id].version != i.cols.version
    ensures Save(rows, i, None, freshPk).Ok? ==>
              var id := i.pk.GetOr(freshPk);
              Save(rows, i, None, freshPk) == Ok(Saved(rows[id := i.cols], Instance(Some(id), i.cols)))
  {
    SaveFailsIff(rows, i, None, freshPk);
    if i.pk.Some? {
      forall id
        ensures Collides(rows, i.pk.value, i, None, id) <==>
                id in rows && i.pk != Some(id) && rows[id].pack == i.cols.pack && rows[id].version == i.cols.version
      {
      }
    }
  }

  /** A save of some fields writes those columns of its own row, and no other column and no other row. */
  lemma {:induction false} SaveWrites(rows: Rows, i: Instance, fields: set<Field>, freshPk: RowId)
    requires i.pk.Some? && i.pk.value in rows && Save(rows, i, Some(fields), freshPk).Ok?
    ensures var s, id := Save(rows, i, Some(fields), freshPk).value, i.pk.value;
            && s.inst == i && s.rows.Keys == rows.Keys
            && (forall other :: other in rows && other != id ==> s.rows[other] == rows[other])
            && (forall f :: f in fields ==> Col(s.rows[id], f) == Col(i.cols, f))
            && (forall f :: f !in fields ==> Col(s.rows[id], f) == Col(rows[id], f))
  {
    forall f
      ensures Col(Written(rows[i.pk.value], i.cols, fields), f) ==
              if f in fields then Col(i.cols, f) else Col(rows[i.pk.value], f)
    {
      WrittenCol(rows[i.pk.value], i.cols, fields, f);
    }
  }

  lemma WrittenCol(stored: Columns, mine: Columns, fields: set<Field>, f: Field)
    ensures Col(Written(stored, mine, fields), f) == if f in fields then Col(mine, f) else Col(stored, f)
  {
  }

  // ---------------------------------------------------------------- runs of many instances

  datatype Event =
    | New(i: InstanceId, cols: Columns)
    | Load(i: InstanceId, row: RowId)
    | Edit(i: InstanceId, cols: Columns)
    | SaveIt(i: InstanceId, updateFields: Option<set<Field>>, freshPk: RowId)

  /** Every in-memory edit is possible, except clearing `published_at`. */
  ghost predicate Enabled(s: State, e: Event) {
    match e
    case New(i, _) => i !in s.live
    case Load(_, row) => row in s.rows
    case Edit(i, cols) => i in s.live && (s.live[i].cols.publishedAt.Some? ==> cols.publishedAt.Some?)
    case SaveIt(i, _, freshPk) =>
      i in s.live && freshPk !in s.rows && (s.live[i].pk.Some? ==> s.live[i].pk.value in s.rows)
  }

  ghost function Do(s: State, e: Event): State
    requires Enabled(s, e)
  {
    match e
    case New(i, cols) => s.(live := s.live[i := Instance(None, cols)])
    case Load(i, row) => s.(live := s.live[i := Instance(Some(row), s.rows[row])])
    case Edit(i, cols) => s.(live := s.live[i := s.live[i].(cols := cols)])
    case SaveIt(i, updateFields, freshPk) =>
      match Save(s.rows, s.live[i], updateFields, freshPk)
      case Ok(saved) => State(saved.rows, s.live[i := saved.inst])
      case Err(_) => s
  }

  ghost function After(s: State, es: seq<Event>): Option<State> {
    if es == [] then Some(s)
    else
      match After(s, es[..|es| - 1])
      case Some(m) => if Enabled(m, es[|es| - 1]) then Some(Do(m, es[|es| - 1])) else None
      case None => None
  }

  const EMPTY := State(map[], map[])

  /** The constraint on (pack, version). */
  ghost predicate UniqueVersions(rows: Rows) {
    forall a, b :: a in rows && b in rows && rows[a].pack == rows[b].pack && rows[a].version == rows[b].version ==>
        a == b
  }

  /** Whoever holds a published row knows that it is published. */
  ghost predicate HoldersKnow(rows: Rows, live: map<InstanceId, Instance>) {
    forall i :: i in live && live[i].pk.Some? ==>
                  && live[i].pk.value in rows
                  && (rows[live[i].pk.value].publishedAt.Some? ==> live[i].cols.publishedAt.Some?)
  }

  ghost predicate Inv(s: State) {
    HoldersKnow(s.rows, s.live) && UniqueVersions(s.rows)
  }

  /** Equal but for `revoked_at`. */
  predicate Frozen(before: Columns, after: Columns) {
    after == before.(revokedAt := after.revokedAt)
  }

  ghost predicate KeepsPublished(before: Rows, after: Rows) {
    forall id :: id in before && before[id].publishedAt.Some? ==> id in after && Frozen(before[id], after[id])
  }

  lemma PutUnique(rows: Rows, id: RowId, row: Columns)
    requires UniqueVersions(rows) && !Taken(rows, row.pack, row.version, Some(id))
    ensures UniqueVersions(rows[id := row])
  {
  }

  /** A row that is put by a holder who knows, and that is published only if it is new or was published before. */
  lemma PutKnown(rows: Rows, live: map<InstanceId, Instance>, i: InstanceId, inst: Instance, id: RowId, row: Columns)
    requires HoldersKnow(rows, live) && inst.pk == Some(id)
    requires row.publishedAt.Some? ==> inst.cols.publishedAt.Some? && (id in rows ==> rows[id].publishedAt.Some?)
    ensures HoldersKnow(rows[id := row], live[i := inst])
  {
  }

  /** What the guard lets through to a published row leaves it frozen, and it publishes no draft. */
  lemma WrittenFrozen(stored: Columns, i: Instance, updateFields: Option<set<Field>>)
    requires i.pk.Some? && !Refused(i, updateFields) && (stored.publishedAt.Some? ==> i.cols.publishedAt.Some?)
    ensures var row := Written(stored, i.cols, updateFields.GetOr(ALL));
            && (stored.publishedAt.Some? ==> Frozen(stored, row))
            && (row.publishedAt.Some? ==> i.cols.publishedAt.Some? && stored.publishedAt.Some?)
  {
  }

  lemma SaveKeeps(s: State, e: Event)
    requires Inv(s) && Enabled(s, e) && e.SaveIt?
    ensures Inv(Do(s, e)) && KeepsPublished(s.rows, Do(s, e).rows)
  {
    var inst := s.live[e.i];
    match Save(s.rows, inst, e.updateFields, e.freshPk)
    case Err(_) =>
    case Ok(saved) =>
      if e.updateFields == Some({}) {
        assert s.live[e.i := inst] == s.live;
      } else if inst.pk.None? {
        PutUnique(s.rows, e.freshPk, inst.cols);
        PutKnown(s.rows, s.live, e.i, saved.inst, e.freshPk, inst.cols);
      } else {
        var id := inst.pk.value;
        WrittenFrozen(s.rows[id], inst, e.updateFields);
        PutUnique(s.rows, id, saved.rows[id]);
        PutKnown(s.rows, s.live, e.i, inst, id, saved.rows[id]);
      }
  }

  lemma {:induction false} RunKeeps(s: State, es: seq<Event>)
    requires Inv(s) && After(s, es).Some?
    ensures Inv(After(s, es).value) && KeepsPublished(s.rows, After(s, es).value.rows)
  {
    if es != [] {
      RunKeeps(s, es[..|es| - 1]);
      var m, e := After(s, es[..|es| - 1]).value, es[|es| - 1];
      if e.SaveIt? { SaveKeeps(m, e); }
    }
  }

  lemma {:induction false} AfterConcat(s: State, es: seq<Event>, fs: seq<Event>)
    requires After(s, es + fs).Some?
    ensures After(s, es).Some? && After(After(s, es).value, fs) == After(s, es + fs)
    decreases |fs|
  {
    if fs == [] {
      assert es + fs == es;
    } else {
      assert (es + fs)[..|es + fs| - 1] == es + fs[..|fs| - 1];
      AfterConcat(s, es, fs[..|fs| - 1]);
    }
  }

  // ---------------------------------------------------------------- what is served

  predicate Published(c: Columns, pack: PackId) {
    c.pack == pack && c.publishedAt.Some? && c.revokedAt.None?
  }

  predicate Downloadable(c: Columns, pack: PackId, now: Time) {
    Published(c, pack) && c.publishedAt.value <= now
  }

  /** The download serves the highest version published by now and not revoked. */
  ghost predicate Serves(rows: Rows, pack: PackId, now: Time, id: RowId) {
    && id in rows && Downloadable(rows[id], pack, now)
    && forall other :: other in rows && Downloadable(rows[other], pack, now) ==> rows[other].version <= rows[id].version
  }

  /** The catalogue announces the highest version with a publication time and not revoked. */
  ghost predicate Announces(rows: Rows, pack: PackId, id: RowId) {
    && id in rows && Published(rows[id], pack)
    && forall other :: other in rows && Published(rows[other], pack) ==> rows[other].version <= rows[id].version
  }

  /**
   The catalogue may announce what cannot be downloaded yet: the announced version
   is served once its time has come.
   */
  lemma AnnouncedIsServedIff(rows: Rows, pack: PackId, now: Time, id: RowId)
    requires Announces(rows, pack, id)
    ensures Serves(rows, pack, now, id) <==> rows[id].publishedAt.value <= now
  {
  }

  lemma {:induction false} HighestExists(rows: Rows, ids: set<RowId>) returns (best: RowId)
    requires ids <= rows.Keys && ids != {}
    ensures best in ids && forall id :: id in ids ==> rows[id].version <= rows[best].version
  {
    best :| best in ids;
    if ids != {best} {
      var other := HighestExists(rows, ids - {best});
      if rows[other].version > rows[best].version { best := other; }
    }
  }

  /** A download finds a version exactly when some version is downloadable. */
  lemma ServedIffAny(rows: Rows, pack: PackId, now: Time)
    ensures (exists id :: Serves(rows, pack, now, id)) <==>
            exists id :: && id in rows && rows[id].pack == pack && rows[id].revokedAt == None
                         && rows[id].publishedAt.Some? && rows[id].publishedAt.value <= now
  {
    var ids := set id | id in rows && Downloadable(rows[id], pack, now);
    if some :| some in rows && Downloadable(rows[some], pack, now) {
      assert some in ids;
      var best := HighestExists(rows, ids);
      assert Serves(rows, pack, now, best);
    }
  }

  /**
   Published bytes are fixed: in every run of any number of instances, two
   downloads of one version of a pack, at any two moments, name the same object,
   size and checksum.
   */
  lemma DownloadsAgree(es: seq<Event>, fs: seq<Event>, pack: PackId, id1: RowId, id2: RowId, now1: Time, now2: Time)
    requires After(EMPTY, es + fs).Some? && After(EMPTY, es).Some?
    requires Serves(After(EMPTY, es).value.rows, pack, now1, id1)
             && Serves(After(EMPTY, es + fs).value.rows, pack, now2, id2)
    requires After(EMPTY, es).value.rows[id1].version == After(EMPTY, es + fs).value.rows[id2].version
    ensures id1 == id2 && Frozen(After(EMPTY, es).value.rows[id1], After(EMPTY, es + fs).value.rows[id2])
  {
    RunKeeps(EMPTY, es);
    AfterConcat(EMPTY, es, fs);
    RunKeeps(After(EMPTY, es).value, fs);
    assert Frozen(After(EMPTY, es).value.rows[id1], After(EMPTY, es + fs).value.rows[id1]);
  }

  lemma Extend(es: seq<Event>, e: Event)
    requires After(EMPTY, es).Some? && Enabled(After(EMPTY, es).value, e)
    ensures After(EMPTY, es + [e]) == Some(Do(After(EMPTY, es).value, e))
  {
    assert (es + [e])[..|es|] == es;
  }

  /**
   From every state that a run can reach, a new version that is higher than those of
   its pack can be created published, and is then the one that is served.
   */
  lemma {:induction false} CanPublish(es: seq<Event>, i: InstanceId, cols: Columns, pk: RowId, now: Time)
    requires After(EMPTY, es).Some? && i !in After(EMPTY, es).value.live && pk !in After(EMPTY, es).value.rows
    requires cols.publishedAt.Some? && cols.publishedAt.value <= now && cols.revokedAt == None
    requires forall r :: r in After(EMPTY, es).value.rows.Values && r.pack == cols.pack ==> r.version < cols.version
    ensures var created := After(EMPTY, es + [New(i, cols)] + [SaveIt(i, None, pk)]);
            && created.Some? && created.value.rows == After(EMPTY, es).value.rows[pk := cols]
            && forall id :: Serves(created.value.rows, cols.pack, now, id) <==> id == pk
  {
    var rows := After(EMPTY, es).value.rows;
    Extend(es, New(i, cols));
    Extend(es + [New(i, cols)], SaveIt(i, None, pk));
    forall id | id in rows
      ensures rows[id].pack == cols.pack ==> rows[id].version < cols.version
    {
      assert rows[id] in rows.Values;
    }
    WholeSaveSucceedsIff(rows, Instance(None, cols), pk);
    assert Downloadable(rows[pk := cols][pk], cols.pack, now);
  }

  /** What is loaded is what is stored: saving it again, whole or in any fields, leaves the table as it was. */
  lemma {:induction false} LoadThenSave(es: seq<Event>, i: InstanceId, row: RowId, updateFields: Option<set<Field>>,
                                        pk: RowId)
    requires After(EMPTY, es).Some? && row in After(EMPTY, es).value.rows && pk !in After(EMPTY, es).value.rows
    ensures var again := After(EMPTY, es + [Load(i, row)] + [SaveIt(i, updateFields, pk)]);
            again.Some? && again.value.rows == After(EMPTY, es).value.rows
  {
    Extend(es, Load(i, row));
    Extend(es + [Load(i, row)], SaveIt(i, updateFields, pk));
    RunKeeps(EMPTY, es);
    var rows := After(EMPTY, es).value.rows;
    assert Written(rows[row], rows[row], updateFields.GetOr(ALL)) == rows[row];
    assert rows[row := rows[row]] == rows;
  }

  /** And every published version can be revoked from a fresh instance; it is then not served any more, at any time. */
  lemma {:induction false} CanRevoke(es: seq<Event>, i: InstanceId, row: RowId, at: Time, pk: RowId)
    requires After(EMPTY, es).Some? && row in After(EMPTY, es).value.rows && pk !in After(EMPTY, es).value.rows
    requires After(EMPTY, es).value.rows[row].publishedAt.Some?
    ensures var rows := After(EMPTY, es).value.rows;
            var edited := rows[row].(revokedAt := Some(at));
            var revoked := After(EMPTY, es + [Load(i, row)] + [Edit(i, edited)] + [SaveIt(i, Some({FRevokedAt}), pk)]);
            && revoked.Some? && revoked.value.rows == rows[row := edited]
            && forall pack, now :: !Serves(revoked.value.rows, pack, now, row)
  {
    var rows := After(EMPTY, es).value.rows;
    var edited := rows[row].(revokedAt := Some(at));
    Extend(es, Load(i, row));
    Extend(es + [Load(i, row)], Edit(i, edited));
    Extend(es + [Load(i, row)] + [Edit(i, edited)], SaveIt(i, Some({FRevokedAt}), pk));
    RunKeeps(EMPTY, es);
  }

  /**
   The highest version is the one that is served: over any run, as time passes and
   versions are added, a pack is never served at a lower version than before, unless
   what was served has been revoked.
   */
  lemma {:induction false} ServedVersionRises(es: seq<Event>, fs: seq<Event>, pack: PackId, id1: RowId, id2: RowId,
                                              now1: Time, now2: Time)
    requires After(EMPTY, es).Some? && After(EMPTY, es + fs).Some? && now1 <= now2
    requires Serves(After(EMPTY, es).value.rows, pack, now1, id1)
    requires Serves(After(EMPTY, es + fs).value.rows, pack, now2, id2)
    ensures var before, after := After(EMPTY, es).value.rows, After(EMPTY, es + fs).value.rows;
            && id1 in after
            && (after[id1].revokedAt == None ==> after[id2].version >= before[id1].version)
  {
    RunKeeps(EMPTY, es);
    AfterConcat(EMPTY, es, fs);
    RunKeeps(After(EMPTY, es).value, fs);
    var before, after := After(EMPTY, es).value.rows, After(EMPTY, es + fs).value.rows;
    assert Frozen(before[id1], after[id1]);
  }

  /** The announced version is at least the one that is served. */
  lemma AnnouncedIsNotLower(rows: Rows, pack: PackId, now: Time, id: RowId, served: RowId)
    requires Announces(rows, pack, id) && Serves(rows, pack, now, served)
    ensures rows[id].version >= rows[served].version
  {
  }

  /** A stored draft is never published by a save: what is published was inserted published. */
  lemma {:induction false} DraftsStayDrafts(s: State, es: seq<Event>, id: RowId)
    requires Inv(s) && After(s, es).Some? && id in s.rows && s.rows[id].publishedAt.None?
    ensures id in After(s, es).value.rows && After(s, es).value.rows[id].publishedAt.None?
  {
    if es != [] {
      var m, e := After(s, es[..|es| - 1]).value, es[|es| - 1];
      RunKeeps(s, es[..|es| - 1]);
      DraftsStayDrafts(s, es[..|es| - 1], id);
      if e.SaveIt? && m.live[e.i].cols.publishedAt.Some? {
        var inst := m.live[e.i];
        if inst.pk == Some(id) && !Refused(inst, e.updateFields) {
          assert e.updateFields.value == {FRevokedAt};
        }
      }
    }
  }

  /**
   The guard protects a published row from whatever the instance holds exactly
   when the instance is published in memory, or writes nothing but `revoked_at`.
   */
  lemma GuardProtectsIff(rows: Rows, id: RowId, publishedInMemory: Option<Time>, updateFields: Option<set<Field>>,
                         freshPk: RowId)
    requires id in rows && rows[id].publishedAt.Some?
    requires UniqueVersions(rows)
    ensures (forall cols: Columns :: cols.publishedAt == publishedInMemory ==>
            Safe(rows, id, cols, updateFields, freshPk))
            <==> publishedInMemory.Some? || updateFields.GetOr(ALL) <= {FRevokedAt}
  {
    if publishedInMemory.Some? || updateFields.GetOr(ALL) <= {FRevokedAt} {
      forall cols: Columns | cols.publishedAt == publishedInMemory
        ensures Safe(rows, id, cols, updateFields, freshPk)
      {
        var fields := updateFields.GetOr(ALL);
        if !Refused(Instance(Some(id), cols), updateFields) && updateFields != Some({}) {
          assert updateFields.Some? by { assert FPack in ALL; }
          assert updateFields == Some(fields) && fields != {};
          assert fields == {FRevokedAt};
        }
      }
    } else {
      var cols := ClearedIsUnsafe(rows, id, updateFields, freshPk);
    }
  }

  /** The save leaves the published row as it is, but for `revoked_at`. */
  ghost predicate Safe(rows: Rows, id: RowId, cols: Columns, updateFields: Option<set<Field>>, freshPk: RowId)
    requires id in rows
  {
    match Save(rows, Instance(Some(id), cols), updateFields, freshPk)
    case Ok(s) => id in s.rows && Frozen(rows[id], s.rows[id])
    case Err(_) => true
  }

  /**
   In-memory columns, with `published_at` cleared, that differ from the stored ones
   everywhere; `top` is above every pack and version.
   */
  function Cleared(stored: Columns, top: nat): Columns {
    Columns(top, top, stored.objectKey + "x", stored.sizeBytes + 1, stored.checksum + "x", stored.signature + "x",
            None, stored.revokedAt, stored.changelog + "x")
  }

  lemma {:induction false} SomeTop(rows: Rows, ids: set<RowId>) returns (top: nat)
    requires ids <= rows.Keys
    ensures forall id :: id in ids ==> rows[id].pack < top && rows[id].version < top
  {
    if ids == {} {
      top := 0;
    } else {
      var id :| id in ids;
      top := SomeTop(rows, ids - {id});
      top := top + rows[id].pack + rows[id].version + 1;
    }
  }

  lemma ClearedIsUnsafe(rows: Rows, id: RowId, updateFields: Option<set<Field>>, freshPk: RowId) returns (cols: Columns)
    requires id in rows && rows[id].publishedAt.Some?
    requires UniqueVersions(rows)
    requires !(updateFields.GetOr(ALL) <= {FRevokedAt})
    ensures cols.publishedAt.None? && !Safe(rows, id, cols, updateFields, freshPk)
  {
    var top := SomeTop(rows, rows.Keys);
    cols := Cleared(rows[id], top);
    var fields := updateFields.GetOr(ALL);
    var row := Written(rows[id], cols, fields);
    assert !Taken(rows, row.pack, row.version, Some(id));
    var f :| f in fields && f != FRevokedAt;
    assert |row.objectKey| > |rows[id].objectKey| <==> FObjectKey in fields;
    assert |row.checksum| > |rows[id].checksum| <==> FChecksum in fields;
    assert |row.signature| > |rows[id].signature| <==> FSignature in fields;
    assert |row.changelog| > |rows[id].changelog| <==> FChangelog in fields;
    match f
    case FPack => assert row.pack != rows[id].pack;
    case FVersion => assert row.version != rows[id].version;
    case FObjectKey => assert row.objectKey != rows[id].objectKey;
    case FSizeBytes => assert row.sizeBytes != rows[id].sizeBytes;
    case FChecksum => assert row.checksum != rows[id].checksum;
    case FSignature => assert row.signature != rows[id].signature;
    case FPublishedAt => assert row.publishedAt != rows[id].publishedAt;
    case FChangelog => assert row.changelog != rows[id].changelog;
    case FRevokedAt =>
  }
}
