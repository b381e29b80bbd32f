/** The repository directory as a file system keeps it across power cuts. */
module BlobFiles {
  import opened Errors
  import opened BlobNames

  type Bytes = seq<bv8>

  /** A file's bytes survive a power cut once the file has been synchronised. */
  datatype Node = File(bytes: Bytes, durable: bool) | Other

  type Directory = map<string, Node>

  /** One upload that reached its rename: what its writes accepted, what the file
      holds, and how many bytes failed writes had left in it. */
  datatype Record = Record(id: nat, expected: nat, accepted: Bytes, bytes: Bytes, leaked: nat)

  /** A file into which exactly `accepted` was written, but for `leaked` bytes. */
  predicate FileHolds(bytes: Bytes, accepted: Bytes, leaked: nat) {
    |bytes| == |accepted| + leaked && (leaked == 0 ==> bytes == accepted)
  }

  predicate WellRecorded(r: Record) {
    |r.accepted| == r.expected && FileHolds(r.bytes, r.accepted, r.leaked)
  }

  ghost predicate Recorded(records: set<Record>, id: nat, bytes: Bytes) {
    exists r :: r in records && r.id == id && r.bytes == bytes
  }

  /** Every canonical file is whole and durable, and the kept blobs are in place. */
  ghost predicate Good(d: Directory, records: set<Record>, kept: map<string, Bytes>) {
    && (forall name <- d :: FinalId(name).Some? && d[name].File? ==>
          d[name].durable && Recorded(records, FinalId(name).value, d[name].bytes))
    && (forall name <- kept :: FinalId(name).Some? && name in d && d[name] == File(kept[name], true))
  }

  ghost predicate AllGood(ds: seq<Directory>, records: set<Record>, kept: map<string, Bytes>) {
    forall d <- ds :: Good(d, records, kept)
  }

  lemma GoodTemp(d: Directory, records: set<Record>, kept: map<string, Bytes>, name: string, node: Node)
    requires Good(d, records, kept) && FinalId(name) == None
    ensures Good(d[name := node], records, kept) && Good(d - {name}, records, kept)
  {}

  lemma GoodRename(d: Directory, records: set<Record>, kept: map<string, Bytes>, from: string, to: string, r: Record)
    requires Good(d, records, kept) && from in d && to !in d && from != to && FinalId(from) == None
    requires FinalId(to) == Some(r.id) && d[from] == File(r.bytes, true)
    ensures Good((d - {from})[to := d[from]], records + {r}, kept)
  {
    RecordedMore(records, r);
  }

  lemma RecordedMore(records: set<Record>, r: Record)
    ensures forall id, bytes :: Recorded(records, id, bytes) ==> Recorded(records + {r}, id, bytes)
    ensures Recorded(records + {r}, r.id, r.bytes)
  {
    forall id, bytes | Recorded(records, id, bytes) ensures Recorded(records + {r}, id, bytes) {
      var s :| s in records && s.id == id && s.bytes == bytes;
      assert s in records + {r};
    }
    assert r in records + {r};
  }

  lemma AllGoodMore(ds: seq<Directory>, records: set<Record>, kept: map<string, Bytes>, r: Record)
    requires AllGood(ds, records, kept)
    ensures AllGood(ds, records + {r}, kept)
  {
    RecordedMore(records, r);
    hide Recorded;
  }

  lemma AllGoodFewer(ds: seq<Directory>, records: set<Record>, kept: map<string, Bytes>, name: string)
    requires AllGood(ds, records, kept)
    ensures AllGood(ds, records, kept - {name})
  {
    hide Recorded;
  }

  lemma GoodDelete(d: Directory, records: set<Record>, kept: map<string, Bytes>, name: string)
    requires Good(d, records, kept)
    ensures Good(d - {name}, records, kept - {name})
  {
    hide Recorded;
  }

  lemma GoodKeep(d: Directory, records: set<Record>, kept: map<string, Bytes>, name: string)
    requires Good(d, records, kept) && FinalId(name).Some? && name in d && d[name].File?
    ensures Good(d, records, kept[name := d[name].bytes])
  {
    hide Recorded;
  }

  /** What is on disk after a power cut that left directory `d`: synchronised files
      intact, the bytes of the others arbitrary. */
  function AfterCut(d: Directory, junk: map<string, Bytes>): Directory {
    map name | name in d ::
      if d[name].File? && !d[name].durable then File(if name in junk then junk[name] else [], true) else d[name]
  }

  lemma GoodAfterCut(d: Directory, junk: map<string, Bytes>, records: set<Record>, kept: map<string, Bytes>)
    requires Good(d, records, kept)
    ensures Good(AfterCut(d, junk), records, kept)
  {
    hide Recorded;
  }

  /** The same of the current directory and of every state a power cut may bring back. */
  ghost predicate DiskOk(d: Directory, pending: seq<Directory>, records: set<Record>, kept: map<string, Bytes>) {
    Good(d, records, kept) && AllGood(pending, records, kept) && forall r <- records :: WellRecorded(r)
  }

  lemma DiskSynced(d: Directory, pending: seq<Directory>, records: set<Record>, kept: map<string, Bytes>)
    requires DiskOk(d, pending, records, kept)
    ensures DiskOk(d, [], records, kept)
  {}

  /** Any change to a file that is no blob. */
  lemma DiskTemp(d: Directory, pending: seq<Directory>, records: set<Record>, kept: map<string, Bytes>, name: string, node: Node)
    requires DiskOk(d, pending, records, kept) && FinalId(name) == None
    ensures DiskOk(d[name := node], pending, records, kept)
    ensures DiskOk(d[name := node], pending + [d], records, kept)
    ensures DiskOk(d - {name}, pending + [d], records, kept)
  {
    GoodTemp(d, records, kept, name, node);
    hide Good;
  }

  lemma DiskRename(d: Directory, pending: seq<Directory>, records: set<Record>, kept: map<string, Bytes>,
                   from: string, to: string, r: Record)
    requires DiskOk(d, pending, records, kept) && WellRecorded(r)
    requires from in d && to !in d && from != to && FinalId(from) == None
    requires FinalId(to) == Some(r.id) && d[from] == File(r.bytes, true)
    ensures DiskOk((d - {from})[to := d[from]], pending + [d], records + {r}, kept)
  {
    GoodRename(d, records, kept, from, to, r);
    AllGoodMore(pending + [d], records, kept, r);
    hide Good;
  }

  lemma DiskDelete(d: Directory, pending: seq<Directory>, records: set<Record>, kept: map<string, Bytes>, name: string)
    requires DiskOk(d, pending, records, kept)
    ensures DiskOk(d - {name}, pending + [d], records, kept - {name})
  {
    GoodDelete(d, records, kept, name);
    AllGoodFewer(pending + [d], records, kept, name);
    hide Good;
  }

  lemma DiskKeep(d: Directory, records: set<Record>, kept: map<string, Bytes>, name: string)
    requires DiskOk(d, [], records, kept) && FinalId(name).Some? && name in d && d[name].File?
    ensures DiskOk(d, [], records, kept[name := d[name].bytes])
  {
    GoodKeep(d, records, kept, name);
    hide Good;
  }

  lemma DiskCut(d: Directory, pending: seq<Directory>, records: set<Record>, kept: map<string, Bytes>,
                back: Directory, junk: map<string, Bytes>)
    requires DiskOk(d, pending, records, kept) && (back == d || back in pending)
    ensures DiskOk(AfterCut(back, junk), [], records, kept)
  {
    GoodAfterCut(back, junk, records, kept);
    hide Good;
  }

  /** All the blobs of a directory, as they are. */
  function Blobs(d: Directory): map<string, Bytes> {
    map name | name in d && FinalId(name).Some? && d[name].File? :: d[name].bytes
  }

  function RecordsOf(d: Directory): set<Record> {
    set name | name in d && FinalId(name).Some? && d[name].File? ::
      AsFound(FinalId(name).value, d[name].bytes)
  }

  /** A blob that was there from the start. */
  function AsFound(id: nat, bytes: Bytes): Record { Record(id, |bytes|, bytes, bytes, 0) }

  lemma InitiallyGood(d: Directory)
    requires forall name <- d :: d[name].File? ==> d[name].durable
    ensures Good(d, RecordsOf(d), Blobs(d)) && forall r <- RecordsOf(d) :: WellRecorded(r)
  {
    forall name | name in d && FinalId(name).Some? && d[name].File?
      ensures Recorded(RecordsOf(d), FinalId(name).value, d[name].bytes)
    {
      assert AsFound(FinalId(name).value, d[name].bytes) in RecordsOf(d);
    }
  }

  /** At most this name differs. */
  ghost predicate OnlyAt(before: Directory, after: Directory, name: string) {
    after - {name} == before - {name}
  }

  lemma OnlyAtOne(d: Directory, name: string, node: Node)
    ensures OnlyAt(d, d, name) && OnlyAt(d, d[name := node], name) && OnlyAt(d, d - {name}, name)
  {}

  lemma OnlyAtTwice(d: Directory, middle: Directory, name: string)
    requires OnlyAt(d, middle, name)
    ensures OnlyAt(d, middle - {name}, name)
  {}

  /** The regular files with a valid temporary name: the debris of cut-off uploads. */
  predicate IsDebris(d: Directory, name: string) {
    name in d && TempId(name).Some? && d[name].File?
  }

  function Debris(d: Directory): set<string> {
    set name | name in d && IsDebris(d, name)
  }

  // ---- What a scan finds ----

  /** A blob with the largest id, after which there is no next one. */
  predicate HasLastId(d: Directory) { FinalName(UINT64_MAX) in d && d[FinalName(UINT64_MAX)].File? }

  predicate IsListed(d: Directory, e: Entry) {
    IsBlobId(e.id) && FinalName(e.id) in d && d[FinalName(e.id)].File? && |d[FinalName(e.id)].bytes| == e.storedBytes
  }

  /** The entries are the directory's blobs, each once, newest first. */
  ghost predicate Lists(d: Directory, entries: seq<Entry>) {
    && (forall e <- entries :: IsListed(d, e))
    && (forall name <- d :: FinalId(name).Some? && d[name].File? ==>
          Entry(FinalId(name).value, |d[name].bytes|) in entries)
    && (forall i, j :: 0 <= i < j < |entries| ==> entries[i].id > entries[j].id)
  }

  /** The greatest id, if any. */
  ghost predicate IsMaxId(entries: seq<Entry>, maxId: Option<nat>) {
    match maxId
    case None => entries == []
    case Some(id) => (exists e <- entries :: e.id == id) && (forall e <- entries :: e.id <= id)
  }
}
