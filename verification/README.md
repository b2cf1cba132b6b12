# Wordfence CLI remediator, modelled in Dafny

This project models the remediation engine of Wordfence CLI
(`wordfence/wordpress/remediator.py`). The engine replaces tampered
WordPress files with their correct content. It handles one file at a time
through a short pipeline:

1. classify the file;
2. stop if it is unknown;
3. fetch the correct content from a remediation source, and stop if none
   comes back;
4. overwrite the file, recording a failure if the write raises `OSError`.

Each stage sets flags on a `RemediationResult`. A directory walk wraps the
pipeline and yields one result per file found. An empty directory yields a
single placeholder result with identity `GroupIdentity(UNKNOWN, dir)`.

Modules:

- `Wrappers` (`wrappers.dfy`): `Option`, for the source's `Optional[...]`.
- `FileSystem` (`filesystem.dfy`): the environment the engine runs in. Class
  `Disk` holds the bytes of every file in a `files` map that writes update
  in place. It also holds the directory listings (each the sequence of files
  a walk yields) and the set of paths whose overwrite raises `OSError`.
- `Identifier` (`identifier.dfy`): the identity values the classifier
  produces (`FileType`, `FileIdentity`, `KnownFileIdentity`,
  `GroupIdentity`). Only the fields the engine reads are kept.
  `wordfence/wordpress/identifier.py` is not part of this model.
- `RemediationSource` (`remediation_source.dfy`):
  `Noc1RemediationSource.get_correct_content`, split in two. The first part
  builds the request from the identity. The second maps an `ApiException`
  to `None`. The client call itself is a function parameter.
- `Remediation` (`remediation.dfy`): `RemediationResult` as a datatype, the
  pure specification of every outcome (`FileOutcome`, `DirectoryOutcomes`,
  `RemediateOutcomes`), and class `Remediator`. Its `RemediateFile` and
  `Remediate` methods update the result step by step, overwrite files on the
  `Disk`, and bump `inputCount`. Each method is proved against the
  specification functions.

The classifier (`FileIdentifier().identify`) is a function from path to
identity. The remediation source is a function from identity to
`Option<bytes>`. Both are fixed when the `Remediator` is constructed.
Because these oracles are deterministic, a path that occurs twice in a walk
gets the same outcome both times. So after a whole run, every remediated
path holds its fetched bytes.

Three points of the code are easy to misread; the model follows the code:

- `known` becomes true only after content has been obtained
  (`remediator.py:102`), not right after classification. A failed fetch
  therefore leaves `known == false`.
- The overwrite goes to `path`, not to `target_path` (`remediator.py:105`).
  `target_path` is only recorded on the result. In a directory walk it is
  the directory itself (`remediator.py:127`).
- A failed write is not promised to leave the file's bytes intact. The file
  is opened with `'wb'`, which truncates before writing.

## Model

| member | source | states |
|---|---|---|
| `Remediation.RemediationResult.Succeeded` | wordfence/wordpress/remediator.py:70-71 | A result's truth value is exactly its `remediated` flag. |
| `Remediation.EmptyDirectoryOutcome` | wordfence/wordpress/remediator.py:129-133 | The placeholder for a directory without files has path and target the directory, identity `GroupIdentity(UNKNOWN, dir)`, both flags false, and is not truthy. |
| `FileSystem.Disk.Listing` | wordfence/wordpress/remediator.py:121-126 | An accessor for the abstracted walk: it gives the directory's file sequence exactly when the path is a directory (`is_dir()`), and `None` otherwise. |
| `Remediation.NewResult` | wordfence/wordpress/remediator.py:56-68 | A new result has `known` and `remediated` false. `target_path` is the given target when there is one, and `path` otherwise. |
| `Remediation.FileOutcome` | wordfence/wordpress/remediator.py:84-113 | If the identity's type is UNKNOWN, neither flag is set. If the source gives no content, neither flag is set. If content is obtained, `known` is set, and `remediated` is set exactly when the path is writable. `remediated` implies `known`. The result is truthy exactly when the file is remediable. |
| `Remediation.ApiFailureIsAbsorbed` | wordfence/wordpress/remediator.py:95-101 | With the Noc1 source, a client `ApiException` leaves the file neither known nor remediated. |
| `Remediation.DirectoryOutcomes` | wordfence/wordpress/remediator.py:121-128 | A walk over files `f1..fn` gives exactly n results, in enumeration order. Result k is `remediate_file(fk)` with the directory as `target_path`. |
| `Remediation.RemediateOutcomes` | wordfence/wordpress/remediator.py:118-135 | A call always yields at least one result. A non-directory yields exactly its own `remediate_file` result. An empty directory yields one placeholder: identity `GroupIdentity(UNKNOWN, dir)`, both flags false, target the directory. A non-empty directory yields one result per file with target the directory. Every result's `remediated` implies `known`. |
| `Remediation.WalkStep` | wordfence/wordpress/remediator.py:122-128 | One step of a walk keeps two facts. Paths never attempted keep their original bytes. Every remediated path holds exactly its fetched content, because a repeated path has the same outcome. |
| `Remediation.DirectorySuccessCount` | wordfence/wordpress/remediator.py:121-128 | The number of truthy results of a walk equals the number of its files that are classified, have content, and are writable. |
| `Remediation.SuccessCount` | wordfence/wordpress/remediator.py:118-135 | The number of truthy results of `remediate(path)` is: for a non-directory, 1 if the path is remediable and 0 otherwise; for a directory, the number of remediable files (0 when it is empty). |
| `Remediation.RunSucceeded` | wordfence/wordpress/remediator.py:118-135 | Every result of `remediate(path)` is truthy exactly when the truthy count equals the number of results, and exactly when either the path is not a directory and is remediable, or it is a non-empty directory whose every file is remediable. An empty directory is never all-truthy. |
| `Remediation.Remediator.constructor` | wordfence/wordpress/remediator.py:76-79 | Stores the classifier and the source, and starts `input_count` at 0. |
| `Remediation.Remediator.RemediateFile` | wordfence/wordpress/remediator.py:84-113 | The result is `FileOutcome`. An unknown or unfetched file leaves the disk unchanged. A successful write makes `path` hold exactly the fetched bytes and changes nothing else. A failed write changes no path other than `path`. |
| `Remediation.Remediator.Remediate` | wordfence/wordpress/remediator.py:118-135 | `input_count` goes up by exactly 1. The results are `RemediateOutcomes` for the path's listing. Every path no result attempted to write keeps its bytes. Every remediated path holds its fetched content. |
| `FileSystem.Disk.Overwrite` | wordfence/wordpress/remediator.py:103-108 | The write succeeds exactly when the path is writable. On success, the file holds exactly the new bytes. Either way, no other path changes. |
| `RemediationSource.Noc1Request` | wordfence/wordpress/remediator.py:30-46 | The request carries the file type's value, the local path and the site version. It carries the extension's name and version if and only if the identity has an extension. |
| `RemediationSource.Noc1CorrectContent` | wordfence/wordpress/remediator.py:26-51 | The client's returned value is passed through. An `ApiException` gives `None` instead of propagating. |
| `RemediationSource.FileTypeValueRoundTrip` | wordfence/wordpress/remediator.py:31 | The file type's string value, as sent in the request, reads back as the same type. |
| `RemediationSource.RequestKeyRoundTrip` | wordfence/wordpress/remediator.py:30-46 | Reading the request back gives the identity's full catalog key: type, path, site version and extension. |
| `RemediationSource.RequestDeterminesKey` | wordfence/wordpress/remediator.py:30-46 | Two known files get the same request if and only if they have the same catalog key. |

## Left out

- Real file I/O (`open(path, 'wb')` and `write`). It is an update of `Disk.files`, and whether it raises `OSError` is decided by the `Disk.unwritable` set.
- FileSystem.Disk.Overwrite: after a failed write it promises nothing about the failing path's own bytes, because `'wb'` may truncate before the error. `Remediator.RemediateFile` and `Remediator.Remediate` inherit this. Only the other paths are promised unchanged.
- The classifier `FileIdentifier().identify` is an opaque function from path to identity, fixed at construction. The source builds it internally. Its algorithm, and `wordfence/wordpress/identifier.py` generally, are not part of this model. The string values of `FileType` (`core`, `plugin`, `theme`, `unknown`) are taken as given.
- `Site.get_version()` and `Extension.get_name()` are plain fields (`Site.version`, `Extension.name`). How they are computed is not modelled.
- The `noc1.Client.get_wp_file_content` network call is a function parameter. It either returns a value or raises `ApiException`. Other exceptions, which propagate in the source, are not modelled.
- The abstract `RemediationSource` base class, whose method returns `None`, and `Remediator.get_correct_content`, which only delegates, are both the `Source` function the `Remediator` holds.
- `pathlib_resolve` is the identity on paths.
- `iterate_files` and symbolic-link loop detection are the given sequence `Disk.directories[dir]`, with loops already skipped. `handle_symlink_loop` only logs.
- Logging (`log.warning`, `log.debug`, `log.error`) has no effect on outcomes and is not modelled.
- Generator laziness and early termination are not modelled. `Remediate` returns the whole sequence of results, and `inputCount` is bumped on the call itself. In the source the bump happens when the first result is pulled.
