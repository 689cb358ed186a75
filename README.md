# CSV chat tool: folder loading, upload de-duplication and the FAISS index

The system is a small Streamlit application that answers questions about CSV
files. CSV files live in two folders, `data_csv` (shipped with the
application) and `uploaded_csv` (files the user uploads). Every row of every
CSV file becomes a document. The documents are embedded into a FAISS vector
store, which is persisted in the directory `faiss_index`. The repository has
two front ends that share this design:

- `main.py` uses the modules `loader.py` (lenient folder loading,
  `handle_uploads`) and `index.py` (`load_or_create_faiss`,
  `update_faiss_index`).
- `app.py` is a single-file variant with its own strict folder builder
  (`build_index_from_csv_folder`), its own start-up block and its own upload
  loop.

This project models the data flow of both variants and proves what each of
them does with a folder listing, with a batch of uploads and with the
persisted index.

Structure, one Dafny module per source module:

- `files.dfy` (`Files`): shared vocabulary.
  - File names, bytes and the records a CSV file yields.
  - The CSV parser (`CSVLoader(...).load()`), as an opaque function
    parameter that either yields records or raises (`None`).
  - Folders: a listing in `os.listdir` order plus the file contents.
  - Writing uploaded files into a folder.
  - The two file-name tests:
    - `name.lower().endswith(".csv")`;
    - the case-sensitive `name.endswith(".csv")`.
- `storage.dfy` (`Storage`): external state the modules change in place.
  - `VectorIndex`: a FAISS store, with `from_documents`, `merge_from` and
    `save_local`.
  - `Disk`: both folders and the persisted index. Its ghost `saveLog`
    records every snapshot `save_local` wrote.
- `loader.dfy` (`Loader`): `load_csvs_from_folder` and `handle_uploads`.
  Each loop is an imperative method proved against a recursive specification
  function. Lemmas about those functions cover order, membership, the
  partition of uploads into skipped and accepted, and which files a batch
  writes.
- `index.dfy` (`Index`): `load_or_create_faiss` and `update_faiss_index`,
  with the exact persisted state each one leaves.
- `app.dfy` (`App`): the `app.py` variant.
  - The strict builder, and its agreement with the lenient loader.
  - The session object (`st.session_state.vectors`) with its start-up and
    upload blocks.
  - The upload loop, specified by a step function over a batch state. Its
    reference definitions are `Repeats` and `Firsts`.

The model follows the code. Four places where a reader might expect
something else:

- `app.py` builds its known-names set from the `.csv` files only, and the
  test is case-sensitive (app.py:114-115). `loader.py` uses every file name
  (loader.py:27). An upload named `A.CSV` that already sits in `data_csv` is
  therefore skipped by `main.py`. `app.py` writes it again and takes all of
  its records as new records, so a file with rows is indexed a second time
  (`App.UpperCaseReuploadContrast`).
- `app.py` puts no `try` around its CSV loads. A load that raises ends
  `build_index_from_csv_folder` or the upload loop at once, and the
  exception escapes (modelled as the `raised` result). Uploads written before
  that point, the failing one included, stay on disk. Nothing is merged or
  saved.
- `handle_uploads` never adds accepted names to its known set. Two uploads of
  one new name in a batch are both written and both loaded, and the second
  overwrites the first on disk (`Loader.SameNameTwiceBothAccepted`). `app.py`
  adds each accepted name, so it skips the second
  (`App.SameNameTwiceSecondSkipped`).
- Neither variant makes an upload batch atomic.

## Model

| member | source | states |
|---|---|---|
| Files.Folder.Write | app.py:122-124 | Writing an upload creates or overwrites exactly that file. Every other file is unchanged, and the folder listing stays a valid listing |
| Files.Folder.WriteAll | loader.py:29-35 | Writing a batch leaves exactly the old files plus the batch's names, and keeps the listing valid |
| Files.WriteAllUntouched | loader.py:33-35 | A file whose name no upload of the batch carries is neither created nor changed |
| Files.WriteAllLastWins | loader.py:33-35 | Where a batch writes one name several times, the file holds the bytes of the last such upload |
| Files.ParsedRecordsAppend | loader.py:36-38 | Uploads are parsed one by one: a concatenated batch yields the records of its parts in order |
| Files.FailedParseAddsNothing | loader.py:36-40 | An upload whose parse raises adds no records, and the uploads around it are still parsed |
| Files.CsvSuffixIsCsvName | app.py:114-115 | Every name that passes the case-sensitive ".csv" test also passes the lower-cased test of app.py:60 |
| Files.UpperCaseCsvName | app.py:60 | "A.CSV" passes the lower-cased test but fails the case-sensitive one, so the two tests differ |
| Storage.VectorIndex.FromDocuments | app.py:130 | A store built from a non-empty list of records holds exactly those records |
| Storage.VectorIndex.MergeFrom | app.py:132 | After merge_from the store holds its own entries followed by the other store's entries |
| Storage.VectorIndex.SaveLocal | app.py:135 | save_local replaces the persisted index with a snapshot of the store and logs that snapshot |
| Storage.Disk.LoadLocal | index.py:17-18 | load_local gives a new store holding the persisted records. It fails (null) exactly when nothing is persisted or what is persisted cannot be loaded |
| Loader.LoadCsvsFromFolder | loader.py:14-23 | The result is the records of the CSV-named files that parse, in listing order. Other files are skipped and the call never fails |
| Loader.ListedRecordsAppend | loader.py:16-20 | Listing order is respected: a concatenated listing yields the records of its first part, then those of its second |
| Loader.SkippedFileContributesNothing | loader.py:17-22 | A listed file that is not CSV-named, or whose load raises, adds nothing, and the files around it are still loaded |
| Loader.ListedRecordsMembers | loader.py:17-20 | A record is loaded if and only if some CSV-named listed file parses to records that contain it |
| Loader.HandleUploads | loader.py:25-42 | Returns the skipped names and the new records of the accepted uploads. Accepted uploads are exactly those whose name is not in either folder, and they are written to uploaded_csv |
| Loader.UploadsPartition | loader.py:29-32 | Every upload lands in exactly one of the skipped list and the accepted list |
| Loader.SkippedAreKnown | loader.py:27-32 | A name is reported skipped if and only if it was already in a folder and some upload carries it |
| Loader.AcceptedAreNew | loader.py:29-35 | An upload is written if and only if it is in the batch and its name is in neither folder |
| Loader.AcceptedNamesNew | loader.py:27-33 | No accepted upload carries a name that was already known |
| Loader.SkippedNeverWritten | loader.py:30-32 | A file already present under a known name is never created or overwritten |
| Loader.AcceptedAppend | loader.py:29-35 | Acceptance is decided upload by upload, in order, with a known set the loop never changes |
| Loader.FailedUploadContributesNothing | loader.py:36-40 | An upload whose load raises is still written but adds no records, and the rest of the batch is processed |
| Loader.SameNameTwiceBothAccepted | loader.py:27-38 | Two uploads of one new name are both accepted and both loaded, and the second one's bytes end up on disk |
| Index.LoadOrCreateFaiss | index.py:14-26 | A persisted index that loads is returned unchanged. Otherwise the default folder is loaded: no records gives None with nothing saved, and records give a new index that holds them and replaces what was saved |
| Index.UpdateFaissIndex | index.py:28-36 | Afterwards the persisted index is the prior records followed by the new records. The prior records are the persisted ones when they load, else the default folder's. So when the saved index cannot be loaded, the records of earlier uploads are dropped. The sequence of saves is stated exactly |
| App.BuildIndexFromCsvFolder | app.py:57-65 | Either the first CSV file whose load raises is reported with no index, or the result is None exactly when no records were gathered, and otherwise a new index holding them |
| App.StrictStopsAtRaise | app.py:59-62 | Once a load has raised, the files listed after it do not affect the outcome |
| App.StrictAgreesWithLenient | app.py:57-62 | The strict builder succeeds if and only if no CSV-named file fails to load; then it gathers what load_csvs_from_folder returns, and otherwise it names the first failing file |
| App.Session.constructor | app.py:49-50 | A new session has no live index |
| App.Session.StartUp | app.py:70-77 | A live index is kept. Otherwise the persisted index becomes live when it loads; failing that, the default folder is built and, when that yields records, saved and made live. A raising load leaves the session and the disk unchanged |
| App.Session.IngestUploads | app.py:113-139 | Uploads are written and loaded as the batch run says. On success with new records they are merged into the live index (or become it), and the result is saved. On a raise, or with no new records, the index and the persisted state are unchanged |
| App.SaveAndLoadUploads | app.py:114-127 | The loop's new records, skipped names, raise and written files are exactly those of the batch run, starting from the case-sensitive known-names set |
| App.RunStopsAtRaise | app.py:125-126 | After an upload's load raises, the rest of the batch is not processed |
| App.RunConsistent | app.py:119-127 | The known set grows by exactly the accepted names, no name is written twice, and no initially known name is written |
| App.AcceptedOnce | app.py:119-127 | No two written uploads share a name, and no written upload had a name known at the start |
| App.SkippedNeverWritten | app.py:118-124 | A file already present under a known name is never created or overwritten by the batch |
| App.KnownAfterRun | app.py:127 | After a batch without raises, every name of the batch is known |
| App.RunMatchesReference | app.py:118-127 | Without raises, the skipped list is exactly the repeats (known at start or seen earlier in the batch), in order, and the written list is the first upload of each new name |
| App.RunDocs | app.py:125-126 | The new records are those of the written uploads, in upload order |
| App.RunPartition | app.py:118-121 | Without raises, every upload lands in exactly one of the skipped list and the written list |
| App.SameNameTwiceSecondSkipped | app.py:119-127 | Of two uploads of one new name that parses, the first is written and the second is skipped |
| App.UpperCaseReuploadContrast | app.py:114-115 | An upload "A.CSV" that is already in data_csv is skipped by handle_uploads. app.py writes it and takes all of its records as new records |

## Left out

- `chat.py` and the chat, page-setup and display parts of `app.py` and `main.py` (app.py:1-45, 79-108, 141-166) are not part of this model. They are the LLM prompt, the retrieval chain, the sidebar and the chat history. No property of the index lifecycle depends on them.
- The `main.py` sequence of calls is not modelled as an operation. The frame of `Index.UpdateFaissIndex` shows that it changes only the disk, so the session index that `main.py` keeps (main.py:29-30, 55) is not refreshed by an upload.
- Embeddings, similarity search and the on-disk format of a FAISS index are not modelled. A store is the sequence of records it holds, in insertion order.
- The CSV parsing itself (delimiter, UTF-8 decoding, record metadata) is a function parameter. A file either yields a record list or raises.
- Storage.Disk.LoadLocal: whether a saved index can be loaded is one fixed flag of the disk (`Disk.loadable`). Newer langchain releases refuse `load_local` unless `allow_dangerous_deserialization=True` is passed, and index.py:18 and app.py:72 do not pass it. On such a release `loadable` is false. Then `update_faiss_index` rebuilds from data_csv on every call and saves the default records followed by the new ones, dropping the records of every earlier upload. Those uploads stay on disk, so their names are still known and a re-upload is skipped. A directory that becomes loadable or unloadable over time is not modelled.
- Files.Lower: `str.lower()` is modelled on ASCII letters only. Non-ASCII case mappings are not modelled.
- Files.Folder.Write: a newly created file is listed after the existing ones. The real `os.listdir` order is arbitrary. The loaders are proved correct for any given listing order.
- Subdirectories of the CSV folders are not modelled. A listed name is a file, or a missing entry whose load raises.
- Directory creation (`os.makedirs`), `load_dotenv` and API keys, logging and the Streamlit messages are not modelled.
- Failures other than a CSV load are not modelled: embedding requests, `save_local` and disk-full errors. Neither are concurrent sessions writing the same folders.
- `if base:`, `if existing:` and `if st.session_state.vectors:` test a FAISS object's truthiness. They are modelled as "is not None"; a store object that Python would consider false is not modelled.
- Storage.VectorIndex.FromDocuments: it requires a non-empty record list. Every caller checks this (app.py:63, app.py:129, index.py:22, main.py:54), and `FAISS.from_documents` fails on an empty list.
- Index.UpdateFaissIndex: it requires non-empty new records. Its only caller checks this (main.py:54), since `FAISS.from_documents` fails on an empty list.
