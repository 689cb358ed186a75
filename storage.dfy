/** The state the program keeps outside its own variables: the FAISS vector
    store objects, abstracted to the records they hold, and the disk, which
    holds the two CSV folders and the persisted index. */
module Storage {
  import opened Files

  /** A FAISS vector store. Embeddings and similarity search are not modelled:
      a store is the sequence of records it was built from, in insertion order. */
  class VectorIndex {
    var entries: seq<Record>

    /** FAISS.from_documents: embeds the records into a new store. The library
        cannot build a store from no records, and every caller guards against it. */
    constructor FromDocuments(docs: seq<Record>)
      requires docs != []
      ensures entries == docs
    {
      entries := docs;
    }

    /** The store load_local rebuilds from what save_local wrote. */
    constructor Deserialize(records: seq<Record>)
      ensures entries == records
    {
      entries := records;
    }

    /** merge_from: this store absorbs every entry of `other`, after its own. */
    method MergeFrom(other: VectorIndex)
      modifies this
      ensures entries == old(entries) + old(other.entries)
    {
      entries := entries + other.entries;
    }

    /** save_local: overwrites the persisted index with a snapshot of this store. */
    method SaveLocal(disk: Disk)
      modifies disk`saved, disk`saveLog
      ensures disk.saved == Some(entries)
      ensures disk.saveLog == old(disk.saveLog) + [entries]
    {
      disk.saved := Some(entries);
      disk.saveLog := disk.saveLog + [entries];
    }
  }

  class Disk {
    /** data_csv */
    var defaultDir: Folder
    /** uploaded_csv */
    var uploadDir: Folder
    /** faiss_index: None when nothing was ever saved there. */
    var saved: Option<seq<Record>>
    /** Whether load_local can read back what is saved. It is false on langchain
        releases that refuse to deserialize unless allow_dangerous_deserialization
        is passed, which neither caller does (index.py:18, app.py:72). Saving
        does not change it. */
    const loadable: bool
    /** Every snapshot save_local ever wrote, oldest first. */
    ghost var saveLog: seq<seq<Record>>

    ghost predicate Valid()
      reads this
    {
      defaultDir.Valid() && uploadDir.Valid()
    }

    constructor (defaultDir: Folder, uploadDir: Folder, saved: Option<seq<Record>>, loadable: bool)
      ensures this.defaultDir == defaultDir && this.uploadDir == uploadDir
      ensures this.saved == saved && this.loadable == loadable && saveLog == []
    {
      this.defaultDir := defaultDir;
      this.uploadDir := uploadDir;
      this.saved := saved;
      this.loadable := loadable;
      saveLog := [];
    }

    /** The records load_local gives back: none when nothing is saved or what is
        saved cannot be loaded. */
    function Loaded(): Option<seq<Record>>
      reads this
    {
      if loadable then saved else None
    }

    /** FAISS.load_local: a new store holding the persisted records, or null
        where Python raises because nothing is saved or it cannot be loaded. */
    method LoadLocal() returns (idx: VectorIndex?)
      ensures idx == null <==> saved.None? || !loadable
      ensures idx != null ==> fresh(idx) && idx.entries == saved.value
    {
      if saved.Some? && loadable {
        idx := new VectorIndex.Deserialize(saved.value);
      } else {
        idx := null;
      }
    }
  }
}
