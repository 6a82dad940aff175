/** `write_atomically`: what a crash or power loss at any moment can leave in the state file. */
module StateFile {
  import opened Basics

  type Bytes = seq<int>

  /** A file's bytes, and whether they have reached the disk. */
  datatype Inode = Inode(bytes: Bytes, synced: bool)

  type Directory = map<string, nat>

  /** The directory as programs see it, and the earlier states of it that a crash may bring back. */
  datatype Fs = Fs(inodes: map<nat, Inode>, next: nat, now: Directory, older: set<Directory>)

  predicate Valid(fs: Fs) {
    && (forall i :: i in fs.inodes ==> i < fs.next)
    && Points(fs, fs.now) && forall dir :: dir in fs.older ==> Points(fs, dir)
  }

  /** Every entry names a file. */
  predicate Points(fs: Fs, dir: Directory) {
    forall p :: p in dir ==> dir[p] in fs.inodes
  }

  function Entry(dir: Directory, path: string): Option<nat> {
    if path in dir then Some(dir[path]) else None
  }

  /** Reading through `entry` can give `r`: after a crash, bytes that were not synced may be anything. */
  predicate EntryReads(fs: Fs, entry: Option<nat>, r: Option<Bytes>) {
    match entry
    case None => r.None?
    case Some(i) => i in fs.inodes && r.Some? && (fs.inodes[i].synced ==> r.value == fs.inodes[i].bytes)
  }

  /** What `path` may name after a crash: what it names now, or named in any directory state not synced over. */
  function Entries(fs: Fs, path: string): set<Option<nat>> {
    {Entry(fs.now, path)} + set dir | dir in fs.older :: Entry(dir, path)
  }

  /** After a crash the file may read as `r`. */
  ghost predicate CrashReads(fs: Fs, path: string, r: Option<Bytes>) {
    exists e :: e in Entries(fs, path) && EntryReads(fs, e, r)
  }

  /** A crash at `fs` leaves `path` as a crash at `before` could have, or complete with `json`. */
  ghost predicate SafeSince(before: Fs, fs: Fs, path: string, json: Bytes) {
    forall r :: CrashReads(fs, path, r) ==> CrashReads(before, path, r) || r == Some(json)
  }

  /** The same can be read at `path` in both, now and after a crash. */
  ghost predicate SameReads(a: Fs, b: Fs, path: string) {
    forall r ::
      && (CrashReads(a, path, r) <==> CrashReads(b, path, r))
      && (EntryReads(a, Entry(a.now, path), r) <==> EntryReads(b, Entry(b.now, path), r))
  }

  /** `path` reads as `content` and nothing else, now. */
  ghost predicate ReadsNow(fs: Fs, path: string, content: Option<Bytes>) {
    forall r :: EntryReads(fs, Entry(fs.now, path), r) <==> r == content
  }

  /** `path` reads as `content` and nothing else, now and after any crash. */
  ghost predicate Settled(fs: Fs, path: string, content: Option<Bytes>) {
    ReadsNow(fs, path, content) && forall r :: CrashReads(fs, path, r) <==> r == content
  }

  /** The call that fails, if one does; a failed write leaves the first `written` bytes. */
  datatype Fault = NoFault | AtCreate | AtWrite(written: nat) | AtSync | AtRename | AtDirSync

  /** Nothing `path` may name has changed, nor any file it may name. */
  lemma Untouched(a: Fs, b: Fs, path: string)
    requires Entries(a, path) == Entries(b, path) && Entry(a.now, path) == Entry(b.now, path)
    requires forall i :: Some(i) in Entries(a, path) ==> i in a.inodes && i in b.inodes && b.inodes[i] == a.inodes[i]
    ensures SameReads(a, b, path)
  {
    assert Entry(a.now, path) in Entries(a, path);
    forall e, r | e in Entries(a, path) ensures EntryReads(a, e, r) == EntryReads(b, e, r) {}
  }

  lemma SameOn(a: Fs, b: Fs, c: Fs, path: string)
    requires SameReads(a, b, path) && SameReads(b, c, path)
    ensures SameReads(a, c, path)
  {}

  /** A new name for `path` leaves it what it may have named, and the new file. */
  lemma NewName(fs: Fs, dir: Directory, path: string)
    ensures Entries(fs.(now := dir, older := fs.older + {fs.now}), path) == Entries(fs, path) + {Entry(dir, path)}
  {
    var grown := fs.older + {fs.now};
    forall e ensures e in (set d | d in grown :: Entry(d, path)) <==> e in Entries(fs, path) {
      if e == Entry(fs.now, path) { assert fs.now in grown; }
      if e in (set d | d in fs.older :: Entry(d, path)) {
        var d :| d in fs.older && e == Entry(d, path);
        assert d in grown;
      }
    }
  }

  /** A directory that names the same file at `path` gives it no new entry. */
  lemma OtherName(fs: Fs, dir: Directory, path: string)
    requires Entry(dir, path) == Entry(fs.now, path)
    ensures Entries(fs.(now := dir, older := fs.older + {fs.now}), path) == Entries(fs, path)
  {
    NewName(fs, dir, path);
  }

  lemma EntriesExist(fs: Fs, path: string)
    requires Valid(fs)
    ensures forall i :: Some(i) in Entries(fs, path) ==> i in fs.inodes && i < fs.next
  {}

  class Disk {
    var fs: Fs
    /** Every state the disk has been in: a crash can strike in any of them. */
    ghost var trace: seq<Fs>

    constructor (fs: Fs)
      requires Valid(fs)
      ensures this.fs == fs && trace == [fs]
    {
      this.fs := fs;
      trace := [fs];
    }

    method Become(next: Fs)
      modifies this
      ensures fs == next && trace == old(trace) + [next]
    {
      fs := next;
      trace := trace + [next];
    }

    /** `create_new`: fails on a name already taken. */
    method Create(name: string, fails: bool) returns (ok: bool)
      requires Valid(fs)
      modifies this
      ensures Valid(fs)
      ensures ok == (!fails && name !in old(fs).now)
      ensures ok ==> fs == Fs(old(fs).inodes[old(fs).next := Inode([], false)], old(fs).next + 1,
                              old(fs).now[name := old(fs).next], old(fs).older + {old(fs).now})
      ensures ok ==> trace == old(trace) + [fs]
      ensures !ok ==> fs == old(fs) && trace == old(trace)
    {
      if fails || name in fs.now {
        return false;
      }
      Become(Fs(fs.inodes[fs.next := Inode([], false)], fs.next + 1, fs.now[name := fs.next], fs.older + {fs.now}));
      return true;
    }

    /** Write (not yet on disk), or sync, the file called `name`. */
    method Fill(name: string, bytes: Bytes, synced: bool)
      requires Valid(fs) && name in fs.now
      modifies this
      ensures Valid(fs)
      ensures fs == old(fs).(inodes := old(fs).inodes[old(fs).now[name] := Inode(bytes, synced)])
      ensures trace == old(trace) + [fs]
    {
      Become(fs.(inodes := fs.inodes[fs.now[name] := Inode(bytes, synced)]));
    }

    method Remove(name: string)
      requires Valid(fs)
      modifies this
      ensures Valid(fs) && fs == old(fs).(now := old(fs).now - {name}, older := old(fs).older + {old(fs).now})
      ensures trace == old(trace) + [fs]
    {
      Become(fs.(now := fs.now - {name}, older := fs.older + {fs.now}));
    }

    method Rename(from: string, to: string)
      requires Valid(fs) && from in fs.now && from != to
      modifies this
      ensures Valid(fs)
      ensures fs == old(fs).(now := (old(fs).now - {from})[to := old(fs).now[from]], older := old(fs).older + {old(fs).now})
      ensures trace == old(trace) + [fs]
    {
      Become(fs.(now := (fs.now - {from})[to := fs.now[from]], older := fs.older + {fs.now}));
    }

    method SyncDir()
      requires Valid(fs)
      modifies this
      ensures Valid(fs) && fs == old(fs).(older := {}) && trace == old(trace) + [fs]
    {
      Become(fs.(older := {}));
    }

    /** `write_synced`, for a state file at `path`. */
    method WriteSynced(tmp: string, json: Bytes, fault: Fault, ghost path: string) returns (ok: bool)
      requires Valid(fs) && tmp != path
      modifies this
      ensures Valid(fs) && SameReads(old(fs), fs, path) && old(trace) <= trace
      ensures ok ==> tmp in fs.now && fs.inodes[fs.now[tmp]] == Inode(json, true)
      ensures forall k :: |old(trace)| <= k < |trace| ==> SameReads(old(fs), trace[k], path)
      ensures !ok <==> fault.AtCreate? || fault.AtWrite? || fault.AtSync? || tmp in old(fs).now
    {
      ghost var before := fs;
      EntriesExist(before, path);
      var created := Create(tmp, fault.AtCreate?);
      if !created {
        return false;
      }
      OtherName(before, fs.now, path);
      Untouched(before, fs, path);
      if fault.AtWrite? {
        Fill(tmp, json[..if fault.written < |json| then fault.written else |json|], false);
        Untouched(before, fs, path);
        return false;
      }
      Fill(tmp, json, false);
      Untouched(before, fs, path);
      if fault.AtSync? {
        return false;
      }
      Fill(tmp, json, true);
      Untouched(before, fs, path);
      return true;
    }

    /**
     * `write_atomically`, over whatever is there. A crash in any state along the way leaves what a crash
     * before the call could have left, or the new snapshot complete; success leaves only the new snapshot;
     * a failure before the rename changes nothing, and after it only the flush is missing.
     */
    method WriteAtomically(path: string, tmp: string, json: Bytes, fault: Fault) returns (ok: bool)
      requires Valid(fs) && tmp != path
      modifies this
      ensures Valid(fs) && old(trace) <= trace
      ensures forall k :: |old(trace)| <= k < |trace| ==> SafeSince(old(fs), trace[k], path, json)
      ensures SafeSince(old(fs), fs, path, json)
      ensures ok <==> fault.NoFault? && tmp !in old(fs).now
      ensures ok ==> Settled(fs, path, Some(json))
      ensures !ok && (!fault.AtDirSync? || tmp in old(fs).now) ==> SameReads(old(fs), fs, path)
      ensures !ok && fault.AtDirSync? && tmp !in old(fs).now ==> ReadsNow(fs, path, Some(json))
    {
      var written := WriteSynced(tmp, json, fault, path);
      ghost var before := fs;
      if written && !fault.AtRename? {
        Rename(tmp, path);
        NewName(before, fs.now, path);
        RenamedReads(before, fs, path, json);
      } else {
        Remove(tmp);
        EntriesExist(before, path);
        OtherName(before, fs.now, path);
        Untouched(before, fs, path);
        SameOn(old(fs), before, fs, path);
        return false;
      }
      if fault.AtDirSync? {
        return false;
      }
      ghost var renamed := fs;
      SyncDir();
      SyncedReads(renamed, fs, path, json);
      return true;
    }

    /** `persist` called again and again, each save with a fault of its own. */
    method SaveAll(path: string, saves: seq<Save>) returns (last: bool)
      requires Valid(fs) && forall i :: 0 <= i < |saves| ==> saves[i].tmp != path
      modifies this
      ensures Valid(fs) && old(trace) <= trace
      ensures forall k, r :: |old(trace)| <= k < |trace| && CrashReads(trace[k], path, r) ==> Handed(old(fs), path, saves, r)
      ensures last && saves != [] ==> Settled(fs, path, Some(saves[|saves| - 1].json))
    {
      last := true;
      for i := 0 to |saves|
        invariant Valid(fs) && old(trace) <= trace
        invariant forall r :: CrashReads(fs, path, r) ==> Handed(old(fs), path, saves, r)
        invariant forall k, r :: |old(trace)| <= k < |trace| && CrashReads(trace[k], path, r) ==> Handed(old(fs), path, saves, r)
        invariant last && i > 0 ==> Settled(fs, path, Some(saves[i - 1].json))
      {
        last := WriteAtomically(path, saves[i].tmp, saves[i].json, saves[i].fault);
      }
    }
  }

  datatype Save = Save(tmp: string, json: Bytes, fault: Fault)

  /** `r` could be read after a crash before the saves, or is the whole of a snapshot handed to one of them. */
  ghost predicate Handed(before: Fs, path: string, saves: seq<Save>, r: Option<Bytes>) {
    CrashReads(before, path, r) || exists i :: 0 <= i < |saves| && r == Some(saves[i].json)
  }

  /** After the rename the new snapshot is read, and a crash may still bring back what could be read before. */
  lemma RenamedReads(a: Fs, b: Fs, path: string, json: Bytes)
    requires path in b.now && b.now[path] in b.inodes && b.inodes == a.inodes && b.inodes[b.now[path]] == Inode(json, true)
    requires Entries(b, path) == Entries(a, path) + {Entry(b.now, path)}
    ensures ReadsNow(b, path, Some(json)) && SafeSince(a, b, path, json)
  {}

  /** Once the directory is flushed nothing older comes back. */
  lemma SyncedReads(a: Fs, b: Fs, path: string, json: Bytes)
    requires ReadsNow(a, path, Some(json)) && b == a.(older := {})
    ensures Settled(b, path, Some(json))
  {
    assert Entries(b, path) == {Entry(b.now, path)};
    forall r ensures EntryReads(b, Entry(b.now, path), r) <==> r == Some(json) {
      assert EntryReads(a, Entry(a.now, path), r) == EntryReads(b, Entry(b.now, path), r);
    }
  }
}
