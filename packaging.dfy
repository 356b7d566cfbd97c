/**
 * The last two steps both builders share, `_create_zip` of a temporary directory followed by its
 * `cleanup_directory`, and what a build leaves on the disk.
 */
module Packaging {
  import opened Wrappers
  import opened Files

  /** The end of `build`: `_create_zip`, then `cleanup_directory` of the staging directory. */
  function FinishArchive(copied: FileSystem, staging: Path, zip: Path): (bool, FileSystem) {
    match CreateZip(copied, staging, zip)
    case None => (false, copied)
    case Some(zipped) =>
      match CleanupDirectory(zipped, staging)
      case None => (false, zipped)
      case Some(done) => (true, done)
  }

  /**
   * When every file below `staging` is to be archived, the archive goes beside it to a plain place, and
   * outside `staging` the disk is `fs` with the directories on the way to it: the build ends well with
   * exactly those files in the archive and the rest of the disk as `fs` had it.
   */
  lemma FinishArchiveArchived(copied: FileSystem, fs: FileSystem, staging: Path, zip: Path, entries: map<Path, Content>)
    requires staging != [] && staging in copied.dirs && staging !in copied.files
    requires Outside(copied, fs, staging) && FilesUnder(copied, staging) == entries
    requires zip != [] && Apart(staging, zip) && zip !in fs.dirs && copied.IsDir(Parent(zip))
    ensures FinishArchive(copied, staging, zip).0
    ensures Archived(FinishArchive(copied, staging, zip).1, fs, staging, zip, entries)
  {
    ZipBeside(copied, staging, zip, entries);
    var zipped := FileSystem(copied.files[zip := Archive(entries)], copied.dirs);
    assert CleanupDirectory(zipped, staging) == Some(RemoveTree(zipped, staging));
    RemovedStaging(copied, fs, staging, zip, entries);
  }

  /** `_create_zip` of `staging` to a place apart from it archives exactly the files below `staging`. */
  lemma ZipBeside(copied: FileSystem, staging: Path, zip: Path, entries: map<Path, Content>)
    requires FilesUnder(copied, staging) == entries
    requires zip != [] && Apart(staging, zip) && zip !in copied.dirs && copied.IsDir(Parent(zip))
    ensures CreateZip(copied, staging, zip) == Some(FileSystem(copied.files[zip := Archive(entries)], copied.dirs))
  {
    var c := FileSystem(copied.files - {zip}, copied.dirs);
    assert FilesUnder(c, staging) == entries by {
      forall rel ensures staging + rel != zip { ApartBelow(zip, staging, rel); }
    }
    MapRemoveUpdate(copied.files, zip, Archive(entries));
  }

  /** Removing `staging` after the archive was written leaves the disk `Archived` describes. */
  lemma RemovedStaging(copied: FileSystem, fs: FileSystem, staging: Path, zip: Path, entries: map<Path, Content>)
    requires staging != [] && Outside(copied, fs, staging) && !IsPrefix(staging, zip)
    ensures Archived(RemoveTree(FileSystem(copied.files[zip := Archive(entries)], copied.dirs), staging), fs, staging, zip, entries)
  {
  }

  lemma FinishArchiveFrame(copied: FileSystem, staging: Path, zip: Path)
    ensures FilesKept(FinishArchive(copied, staging, zip).1, copied, staging, zip)
  {
  }

  /**
   * The disk after a successful `build`, compared with the disk `fs` before it: the archive `zip` holds
   * `entries`, the staging directory is gone, every other file is as it was, and the only new directories
   * are the ones on the way to the staging directory.
   */
  ghost predicate Archived(done: FileSystem, fs: FileSystem, staging: Path, zip: Path, entries: map<Path, Content>) {
    && zip in done.files && done.files[zip] == Archive(entries)
    && (forall q :: IsPrefix(staging, q) ==> !done.Exists(q))
    && (forall q :: !IsPrefix(staging, q) && q != zip ==> (q in done.files <==> q in fs.files))
    && (forall q :: !IsPrefix(staging, q) && q != zip && q in done.files ==> done.files[q] == fs.files[q])
    && (forall q :: !IsPrefix(staging, q) ==> (q in done.dirs <==> q in fs.dirs || q in Prefixes(staging)))
  }

  /** Outside `staging`, `fs` has the files of `start` and its directories, plus the ones on the way to `staging`. */
  ghost predicate Outside(fs: FileSystem, start: FileSystem, staging: Path) {
    && (forall q :: !IsPrefix(staging, q) ==> (q in fs.files <==> q in start.files))
    && (forall q :: !IsPrefix(staging, q) && q in fs.files ==> fs.files[q] == start.files[q])
    && (forall q :: !IsPrefix(staging, q) ==> (q in fs.dirs <==> q in start.dirs || q in Prefixes(staging)))
  }

  /** Every file outside `staging`, other than `zip`, is the same on `a` as on `b`. */
  ghost predicate FilesKept(a: FileSystem, b: FileSystem, staging: Path, zip: Path) {
    && (forall q :: !IsPrefix(staging, q) && q != zip ==> (q in a.files <==> q in b.files))
    && (forall q :: !IsPrefix(staging, q) && q != zip && q in a.files ==> a.files[q] == b.files[q])
  }

  lemma FilesKeptTrans(a: FileSystem, b: FileSystem, c: FileSystem, staging: Path, zip: Path)
    requires FilesKept(a, b, staging, zip) && FilesKept(b, c, staging, zip)
    ensures FilesKept(a, c, staging, zip)
  {
  }

  lemma MapRemoveUpdate<K, V>(m: map<K, V>, k: K, v: V)
    ensures (m - {k})[k := v] == m[k := v]
  {
  }

  /**
   * A build that archived `staging` into `zip`, a place beside it, leaves a tree behind when it
   * started from one with no file on the way to `staging` and no directory at `zip`.
   */
  lemma ArchivedTree(done: FileSystem, fs: FileSystem, staging: Path, zip: Path, entries: map<Path, Content>)
    requires Archived(done, fs, staging, zip, entries) && IsTree(fs)
    requires zip != [] && IsPrefix(Parent(zip), staging) && Apart(staging, zip) && zip !in fs.dirs
    requires forall q :: q in fs.files && q != [] ==> !IsPrefix(q, staging)
    ensures IsTree(done)
  {
    forall p, q | done.Exists(q) && IsPrefix(p, q) && p != q ensures done.IsDir(p) {
      assert !IsPrefix(staging, q);
      if IsPrefix(staging, p) {
        PrefixTransitive(staging, p, q);
      }
      if p == zip {
        assert q !in Prefixes(staging) by {
          if q in Prefixes(staging) {
            PrefixTransitive(p, q, staging);
          }
        }
        assert fs.Exists(q);
        assert false;
      } else if q == zip {
        assert IsPrefix(p, Parent(zip)) by {
          assert zip[..|p|] == Parent(zip)[..|p|];
        }
        PrefixTransitive(p, Parent(zip), staging);
        if p != [] {
          assert p in Prefixes(staging);
        }
      } else if fs.Exists(q) {
        assert fs.IsDir(p);
      } else {
        assert q in Prefixes(staging);
        PrefixTransitive(p, q, staging);
        if p != [] {
          assert p in Prefixes(staging);
        }
      }
    }
  }

  /**
   * Archiving the same entries again on a disk a build already archived them on changes nothing:
   * the archive is rewritten with the same bytes, and the staging directory is gone once more.
   */
  lemma ArchivedAgain(again: FileSystem, done: FileSystem, fs: FileSystem, staging: Path, zip: Path,
                      entries: map<Path, Content>)
    requires Archived(done, fs, staging, zip, entries) && Archived(again, done, staging, zip, entries)
    ensures again == done
  {
    assert again.files.Keys == done.files.Keys by {
      forall q ensures q in again.files <==> q in done.files {
        if IsPrefix(staging, q) {
          assert !again.Exists(q) && !done.Exists(q);
        }
      }
    }
    assert again.files == done.files;
    forall q ensures q in again.dirs <==> q in done.dirs {
      if IsPrefix(staging, q) {
        assert !again.Exists(q) && !done.Exists(q);
      }
    }
    assert again.dirs == done.dirs;
  }
}
