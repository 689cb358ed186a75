/** index.py: the FAISS index lifecycle used by the main.py front end. */
module Index {
  import opened Files
  import opened Storage
  import opened Loader

  /** The records of the default folder, as load_csvs_from_folder("data_csv")
      returns them. */
  function DefaultRecords(disk: Disk, parse: Parser): seq<Record>
    reads disk
  {
    ListedRecords(disk.defaultDir.names, disk.defaultDir.files, parse)
  }

  /** load_or_create_faiss (index.py:14-26). A persisted index that loads is
      returned as it is; otherwise the default folder is loaded, and an index is
      built and saved only when it yields records. */
  method LoadOrCreateFaiss(disk: Disk, parse: Parser) returns (idx: VectorIndex?)
    modifies disk`saved, disk`saveLog
    ensures old(disk.Loaded()).Some? ==>
      && idx != null && fresh(idx) && idx.entries == old(disk.saved).value
      && disk.saved == old(disk.saved) && disk.saveLog == old(disk.saveLog)
    ensures old(disk.Loaded()).None? && DefaultRecords(disk, parse) == [] ==>
      && idx == null
      && disk.saved == old(disk.saved) && disk.saveLog == old(disk.saveLog)
    ensures old(disk.Loaded()).None? && DefaultRecords(disk, parse) != [] ==>
      && idx != null && fresh(idx) && idx.entries == DefaultRecords(disk, parse)
      && disk.saved == Some(idx.entries) && disk.saveLog == old(disk.saveLog) + [idx.entries]
    ensures !disk.loadable && DefaultRecords(disk, parse) != [] ==>
      disk.saved == Some(DefaultRecords(disk, parse))
    ensures idx != null ==> disk.saved == Some(idx.entries)
  {
    idx := disk.LoadLocal();
    if idx != null {
      return;
    }
    // nothing loadable is persisted: build from the default folder
    var docs := LoadCsvsFromFolder(disk.defaultDir, parse);
    if docs == [] {
      return null;
    }
    idx := new VectorIndex.FromDocuments(docs);
    idx.SaveLocal(disk);
  }

  /** The records an update appends to: the persisted index when it loads,
      else the default folder's records (empty when there are none). */
  function PriorRecords(loaded: Option<seq<Record>>, defaultRecords: seq<Record>): seq<Record>
  {
    match loaded
    case Some(rs) => rs
    case None => defaultRecords
  }

  /** update_faiss_index (index.py:28-36). The new records are embedded into a
      store of their own, merged into the index load_or_create_faiss returns and
      saved; when that returns None the new store alone is saved. When the
      saved index cannot be loaded, it is replaced by the default folder's
      records followed by the new ones, so the records of earlier uploads are
      lost. */
  method UpdateFaissIndex(disk: Disk, parse: Parser, newDocs: seq<Record>)
    requires newDocs != []
    modifies disk`saved, disk`saveLog
    ensures disk.saved == Some(PriorRecords(old(disk.Loaded()), DefaultRecords(disk, parse)) + newDocs)
    ensures !disk.loadable ==> disk.saved == Some(DefaultRecords(disk, parse) + newDocs)
    ensures old(disk.Loaded()).None? && DefaultRecords(disk, parse) == [] ==> disk.saved == Some(newDocs)
    ensures disk.saveLog == old(disk.saveLog)
      + (if old(disk.Loaded()).None? && DefaultRecords(disk, parse) != []
         then [DefaultRecords(disk, parse), DefaultRecords(disk, parse) + newDocs]
         else [PriorRecords(old(disk.Loaded()), DefaultRecords(disk, parse)) + newDocs])
  {
    ghost var prior := PriorRecords(disk.Loaded(), DefaultRecords(disk, parse));
    var newIndex := new VectorIndex.FromDocuments(newDocs);
    var existing := LoadOrCreateFaiss(disk, parse);
    if existing != null {
      existing.MergeFrom(newIndex);
      existing.SaveLocal(disk);
    } else {
      assert prior + newDocs == newDocs;
      newIndex.SaveLocal(disk);
    }
  }
}
