/**
 The nightly audit: every live version's object is read chunk by chunk, hashed,
 and compared with the recorded checksum.

 `hash` stands for SHA-256 of the whole byte string; the running digest is the
 bytes it has been fed.  `storage` maps object keys to the bytes stored there.
 */
module PackAudit {
  import opened Wrappers
  import opened ContentPacks

  type Bytes = seq<bv8>

  const CHUNK := 1024 * 1024

  /** Published, now or later, and not revoked. */
  predicate Live(c: Columns) {
    c.publishedAt.Some? && c.revokedAt.None?
  }

  function LiveIds(rows: Rows): set<RowId> {
    set id | id in rows && Live(rows[id])
  }

  predicate Intact(c: Columns, storage: map<string, Bytes>, hash: Bytes -> string) {
    c.objectKey in storage && hash(storage[c.objectKey]) == c.checksum
  }

  function BadIds(rows: Rows, storage: map<string, Bytes>, hash: Bytes -> string): set<RowId> {
    set id | id in rows && Live(rows[id]) && !Intact(rows[id], storage, hash)
  }

  /** Reading until an empty chunk feeds the digest exactly the file. */
  method DigestOf(file: Bytes, hash: Bytes -> string) returns (hex: string)
    ensures hex == hash(file)
  {
    var fed: Bytes := [];
    var position := 0;
    var chunk := file[..if CHUNK <= |file| then CHUNK else |file|];
    position := |chunk|;
    while chunk != []
      invariant 0 <= position <= |file| && fed + chunk == file[..position]
      invariant chunk == [] ==> position == |file|
      decreases |file| - |fed|
    {
      fed := fed + chunk;
      var end := if position + CHUNK <= |file| then position + CHUNK else |file|;
      chunk := file[position..end];
      assert fed + chunk == file[..end];
      position := end;
    }
    assert fed == file;
    hex := hash(fed);
  }

  /** The counters when only `todo` is left to check. */
  ghost predicate Counted(rows: Rows, storage: map<string, Bytes>, hash: Bytes -> string, todo: set<RowId>,
                          checked: nat, failed: nat) {
    && todo <= LiveIds(rows)
    && checked == |LiveIds(rows) - todo|
    && failed == |BadIds(rows, storage, hash) - todo|
  }

  lemma CountOne(rows: Rows, storage: map<string, Bytes>, hash: Bytes -> string, todo: set<RowId>, id: RowId,
                 checked: nat, failed: nat)
    requires Counted(rows, storage, hash, todo, checked, failed) && id in todo
    ensures Counted(rows, storage, hash, todo - {id}, checked + 1,
                    if Intact(rows[id], storage, hash) then failed else failed + 1)
  {
    var live, bad := LiveIds(rows), BadIds(rows, storage, hash);
    assert live - (todo - {id}) == (live - todo) + {id};
    if Intact(rows[id], storage, hash) {
      assert bad - (todo - {id}) == bad - todo;
    } else {
      assert bad - (todo - {id}) == (bad - todo) + {id};
    }
  }

  lemma CountedAll(rows: Rows, storage: map<string, Bytes>, hash: Bytes -> string, checked: nat, failed: nat)
    ensures Counted(rows, storage, hash, LiveIds(rows), 0, 0)
    ensures Counted(rows, storage, hash, {}, checked, failed) ==>
              checked == |LiveIds(rows)| && failed == |BadIds(rows, storage, hash)|
  {
  }

  /** The same rows with some more versions revoked. */
  function RevokedToo(rows: Rows, more: set<RowId>, at: Time): Rows {
    map id | id in rows :: if id in more then rows[id].(revokedAt := Some(at)) else rows[id]
  }

  /**
   The audit reports no failure exactly when whatever is downloaded, at any time, of
   any pack, and after any further revocations, exists and hashes to its checksum.
   */
  lemma {:induction false} CleanIffVouched(rows: Rows, storage: map<string, Bytes>, hash: Bytes -> string)
    ensures |BadIds(rows, storage, hash)| == 0 <==>
            forall more, at, pack, now, id | Serves(RevokedToo(rows, more, at), pack, now, id) ::
              rows[id].objectKey in storage && hash(storage[rows[id].objectKey]) == rows[id].checksum
  {
    if |BadIds(rows, storage, hash)| == 0 {
      forall more, at, pack, now, id | Serves(RevokedToo(rows, more, at), pack, now, id)
        ensures rows[id].objectKey in storage && hash(storage[rows[id].objectKey]) == rows[id].checksum
      {
        assert id !in BadIds(rows, storage, hash);
      }
    } else {
      var id :| id in BadIds(rows, storage, hash);
      var now := rows[id].publishedAt.value;
      assert Serves(RevokedToo(rows, rows.Keys - {id}, 0), rows[id].pack, now, id);
    }
  }

  /** Live versions of an object whose checksum is that of the given bytes. */
  function LiveWith(rows: Rows, key: string, checksum: string): set<RowId> {
    set id | && id in rows && rows[id].publishedAt.Some? && rows[id].revokedAt == None
             && rows[id].objectKey == key && rows[id].checksum == checksum
  }

  /**
   Changing the stored bytes of an object to bytes of another hash adds a failure for
   each live version that matched before, and takes one away for each that matches now.
   */
  lemma {:induction false} CorruptionIsCounted(rows: Rows, storage: map<string, Bytes>, hash: Bytes -> string,
                                               key: string, bytes: Bytes)
    requires key in storage && hash(bytes) != hash(storage[key])
    ensures |BadIds(rows, storage[key := bytes], hash)| ==
            |BadIds(rows, storage, hash)| + |LiveWith(rows, key, hash(storage[key]))|
            - |LiveWith(rows, key, hash(bytes))|
  {
    var before, after := BadIds(rows, storage, hash), BadIds(rows, storage[key := bytes], hash);
    var broken, mended := LiveWith(rows, key, hash(storage[key])), LiveWith(rows, key, hash(bytes));
    BrokenAndMended(rows, storage, hash, key, bytes);
    assert |after + mended| == |after| + |mended| && |before + broken| == |before| + |broken|;
  }

  lemma BrokenAndMended(rows: Rows, storage: map<string, Bytes>, hash: Bytes -> string, key: string, bytes: Bytes)
    requires key in storage && hash(bytes) != hash(storage[key])
    ensures var before, after := BadIds(rows, storage, hash), BadIds(rows, storage[key := bytes], hash);
            var broken, mended := LiveWith(rows, key, hash(storage[key])), LiveWith(rows, key, hash(bytes));
            after + mended == before + broken && after !! mended && before !! broken
  {
  }

  lemma AuditTells(rows: Rows, storage: map<string, Bytes>, hash: Bytes -> string, checked: nat, failed: nat)
    requires Counted(rows, storage, hash, {}, checked, failed)
    ensures checked == |set id | id in rows && rows[id].publishedAt.Some? && rows[id].revokedAt == None|
    ensures failed == |BadIds(rows, storage, hash)|
    ensures failed == 0 <==>
            forall more, at, pack, now, id | Serves(RevokedToo(rows, more, at), pack, now, id) ::
              rows[id].objectKey in storage && hash(storage[rows[id].objectKey]) == rows[id].checksum
  {
    CountedAll(rows, storage, hash, checked, failed);
    assert LiveIds(rows) == set id | id in rows && rows[id].publishedAt.Some? && rows[id].revokedAt == None;
    CleanIffVouched(rows, storage, hash);
  }

  method VerifyPublishedPacks(rows: Rows, storage: map<string, Bytes>, hash: Bytes -> string)
    returns (checked: nat, failed: nat)
    ensures checked == |set id | id in rows && rows[id].publishedAt.Some? && rows[id].revokedAt == None|
    ensures failed == |BadIds(rows, storage, hash)|
    ensures failed == 0 <==>
            forall more, at, pack, now, id | Serves(RevokedToo(rows, more, at), pack, now, id) ::
              rows[id].objectKey in storage && hash(storage[rows[id].objectKey]) == rows[id].checksum
  {
    checked, failed := 0, 0;
    var todo := LiveIds(rows);
    CountedAll(rows, storage, hash, 0, 0);
    while todo != {}
      invariant Counted(rows, storage, hash, todo, checked, failed)
      decreases todo
    {
      var id :| id in todo;
      CountOne(rows, storage, hash, todo, id, checked, failed);
      todo := todo - {id};
      checked := checked + 1;
      if rows[id].objectKey !in storage {
        failed := failed + 1;
        continue;
      }
      var hex := DigestOf(storage[rows[id].objectKey], hash);
      if hex != rows[id].checksum {
        failed := failed + 1;
      }
    }
    AuditTells(rows, storage, hash, checked, failed);
  }
}
