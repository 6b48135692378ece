/**
 * The four staging files on the card. Every operation can fail, and power can go at any of them: what was not yet
 * synced is then lost to arbitrary bytes, and later operations do nothing.
 */
module StagingCard {
  import opened Bytes
  import opened LedgerText
  import opened StagedMapRecord

  datatype File = TempFile | StageFile | MetaFile | MetaTempFile

  type Files = map<File, seq<byte>>

  type Hash = seq<byte> -> Digest

  /** A payload that was committed, with the record written for it. */
  datatype Pair = Pair(payload: seq<byte>, record: Record)

  predicate Describes(meta: seq<byte>, r: Record) {
    Encodable(r) && meta == Encode(r)
  }

  predicate PairConsistent(hash: Hash, p: Pair) {
    Encodable(p.record) && p.record.size == |p.payload| && p.record.sha256 == hash(p.payload)
  }

  /** The metadata on the card was written for some committed payload. */
  ghost predicate MetaKnown(files: Files, committed: set<Pair>) {
    MetaFile in files ==> exists p :: p in committed && Describes(files[MetaFile], p.record)
  }

  /** The metadata on the card was written for the very payload beside it. */
  ghost predicate MetaMatches(files: Files, committed: set<Pair>) {
    MetaFile in files && StageFile in files ==>
      exists p :: p in committed && p.payload == files[StageFile] && Describes(files[MetaFile], p.record)
  }

  ghost predicate CardSound(hash: Hash, files: Files, unsynced: set<File>, committed: set<Pair>, stuck: bool) {
    && unsynced <= {TempFile, MetaTempFile}
    && (forall p | p in committed :: PairConsistent(hash, p))
    && MetaKnown(files, committed)
    && (!stuck ==> MetaMatches(files, committed))
  }

  // ---- What a restart finds ------------------------------------------------------------

  /** The record that a restart restores from these files; target says which destinations are permitted. */
  function RestoreSpec(hash: Hash, target: (seq<byte>, u32) -> Option<Kind>, files: Files): Option<Record> {
    if MetaFile !in files || StageFile !in files then None
    else
      match Decode(files[MetaFile])
      case Rejected(_) => None
      case Decoded(r) =>
        if target(r.destination, r.size) == None then None
        else if |files[StageFile]| != r.size || hash(files[StageFile]) != r.sha256 then None
        else Some(r)
  }

  /**
   * Whatever crashes and failures came before, a restart restores the record of a committed payload, and the bytes
   * beside it have that payload's length and digest. As long as no file refused to be deleted, they are that payload.
   */
  lemma RestoreNeverMixes(hash: Hash, target: (seq<byte>, u32) -> Option<Kind>, files: Files, unsynced: set<File>,
                          committed: set<Pair>, stuck: bool) returns (origin: Pair)
    requires CardSound(hash, files, unsynced, committed, stuck)
    requires RestoreSpec(hash, target, files).Some?
    ensures origin in committed && RestoreSpec(hash, target, files) == Some(origin.record)
    ensures |files[StageFile]| == |origin.payload| && hash(files[StageFile]) == hash(origin.payload)
    ensures !stuck ==> files[StageFile] == origin.payload
  {
    hide Decode, Encode, Encodable;
    if stuck {
      origin :| origin in committed && Describes(files[MetaFile], origin.record);
    } else {
      origin :| origin in committed && origin.payload == files[StageFile] && Describes(files[MetaFile], origin.record);
    }
    DecodeDescribed(files[MetaFile], origin.record);
  }

  lemma DecodeDescribed(meta: seq<byte>, r: Record)
    requires Describes(meta, r)
    ensures Decode(meta) == Decoded(r)
  {
    DecodeInvertsEncode(r, []);
    assert Encode(r) + [] == Encode(r);
  }

  // ---- The card object -------------------------------------------------------------------

  /** After a power cut only unsynced files can differ. */
  predicate CutFrom(before: Files, unsynced: set<File>, after: Files) {
    after.Keys == before.Keys && forall f | f in before && f !in unsynced :: after[f] == before[f]
  }

  lemma CutKeepsSound(hash: Hash, before: Files, unsynced: set<File>, after: Files, committed: set<Pair>, stuck: bool)
    requires CardSound(hash, before, unsynced, committed, stuck) && CutFrom(before, unsynced, after)
    ensures CardSound(hash, after, unsynced, committed, stuck)
  {
    hide Describes, PairConsistent;
    assert MetaFile in before ==> after[MetaFile] == before[MetaFile];
    assert StageFile in before ==> after[StageFile] == before[StageFile];
  }

  /** Files other than the payload and its metadata do not matter to soundness. */
  lemma ScratchKeepsSound(hash: Hash, before: Files, unsynced: set<File>, after: Files, later: set<File>,
                          committed: set<Pair>, stuck: bool)
    requires CardSound(hash, before, unsynced, committed, stuck)
    requires later <= {TempFile, MetaTempFile}
    requires forall f | f == MetaFile || f == StageFile :: f in after ==> f in before && after[f] == before[f]
    ensures CardSound(hash, after, later, committed, stuck)
  {
    hide Describes, PairConsistent;
  }

  class Card {
    const hash: Hash
    var files: Files
    var unsynced: set<File>
    var powered: bool
    ghost var committed: set<Pair>
    /** Some deletion failed. */
    ghost var stuck: bool
    /** Some operation failed since power came on. */
    ghost var troubled: bool

    ghost predicate Sound()
      reads this
    {
      CardSound(hash, files, unsynced, committed, stuck)
    }

    /** The parts of the card no operation ever takes back. */
    ghost predicate Grows(wasCommitted: set<Pair>, wasStuck: bool, wasTroubled: bool, wasPowered: bool)
      reads this
    {
      committed == wasCommitted && (wasStuck ==> stuck) && (wasTroubled ==> troubled) && (stuck ==> troubled || wasStuck)
      && (powered ==> wasPowered)
    }

    constructor (h: Hash)
      ensures hash == h && Sound() && files == map[] && powered && committed == {} && !stuck && !troubled
    {
      hash := h;
      files, unsynced, powered := map[], {}, true;
      committed, stuck, troubled := {}, false, false;
    }

    /** Power goes: what was not synced is lost. */
    method Cut()
      modifies this`files, this`powered
      ensures !powered && CutFrom(old(files), unsynced, files)
      ensures old(Sound()) ==> Sound()
    {
      hide CardSound;
      ghost var before, sound := files, Sound();
      powered := false;
      var junk: seq<byte> := *;
      files := map f | f in files :: if f in unsynced then junk else files[f];
      if sound {
        CutKeepsSound(hash, before, unsynced, files, committed, stuck);
      }
    }

    /** Power comes back, over whatever the card holds; nothing has failed yet since. */
    method PowerOn()
      modifies this`powered, this`troubled
      ensures powered && !troubled && files == old(files) && (old(Sound()) ==> Sound())
    {
      powered, troubled := true, false;
    }

    /** Anything else of the platform that may fail: the hash engine, or the directory of the files. */
    method Attempt() returns (ok: bool)
      modifies this`troubled
      ensures if ok then troubled == old(troubled) else troubled
    {
      ok := *;
      troubled := troubled || !ok;
    }

    /** Power may go before any step. */
    method Step() returns (on: bool)
      modifies this`files, this`powered
      ensures on == powered && (powered ==> old(powered) && files == old(files))
      ensures CutFrom(old(files), unsynced, files)
      ensures old(Sound()) ==> Sound()
    {
      if !powered {
        return false;
      }
      var cut := *;
      if cut {
        Cut();
      }
      return !cut;
    }

    method Unlink(f: File) returns (ok: bool)
      modifies this
      ensures old(Sound()) ==> Sound()
      ensures Grows(old(committed), old(stuck), old(troubled), old(powered))
      ensures if powered then files == (if ok then old(files) - {f} else old(files)) else CutFrom(old(files), old(unsynced), files)
      ensures powered && !ok && f in old(files) ==> stuck && troubled
      ensures powered && f !in old(files) ==> stuck == old(stuck) && troubled == old(troubled)
      ensures ok ==> powered && stuck == old(stuck) && troubled == old(troubled)
      ensures unsynced <= old(unsynced)
      ensures powered && f in old(unsynced) && ok ==> f !in unsynced
    {
      ghost var before := files;
      var on := Step();
      if !on {
        return false;
      }
      var deleted := *;
      if f !in files {
        return false;
      }
      if !deleted {
        stuck, troubled := true, true;
        return false;
      }
      ghost var sound := Sound();
      ghost var wasUnsynced := unsynced;
      files := files - {f};
      unsynced := unsynced - {f};
      if sound {
        ScratchKeepsSound(hash, before, wasUnsynced, files, unsynced, committed, stuck);
      }
      return true;
    }

    /** Renaming never replaces an existing destination. */
    method Rename(from: File, to: File) returns (ok: bool)
      requires from != to
      modifies this
      ensures Grows(old(committed), old(stuck), old(troubled), old(powered)) && stuck == old(stuck)
      ensures ok ==> powered && from in old(files) && to !in old(files) && files == (old(files) - {from})[to := old(files)[from]]
      ensures ok ==> unsynced == if from in old(unsynced) then old(unsynced) - {from} + {to} else old(unsynced)
      ensures !ok ==> old(Sound()) ==> Sound()
      ensures !ok ==> unsynced == old(unsynced) && (if powered then files == old(files) else CutFrom(old(files), old(unsynced), files))
      ensures powered && !ok && from in old(files) && to !in old(files) ==> troubled
      ensures ok ==> troubled == old(troubled)
    {
      var on := Step();
      if !on {
        return false;
      }
      var renamed := *;
      if from !in files || to in files {
        return false;
      }
      if !renamed {
        troubled := true;
        return false;
      }
      files := (files - {from})[to := files[from]];
      if from in unsynced {
        unsynced := unsynced - {from} + {to};
      }
      return true;
    }

    /** Opens a scratch file for writing, empty. */
    method Create(f: File) returns (ok: bool)
      requires f == TempFile || f == MetaTempFile
      modifies this
      ensures old(Sound()) ==> Sound()
      ensures Grows(old(committed), old(stuck), old(troubled), old(powered)) && stuck == old(stuck)
      ensures ok ==> powered && files == old(files)[f := []] && troubled == old(troubled)
      ensures !ok && powered ==> files == old(files) && troubled
      ensures !powered ==> CutFrom(old(files), old(unsynced), files)
      ensures old(unsynced) <= unsynced <= old(unsynced) + {f}
    {
      ghost var before, wasUnsynced := files, unsynced;
      ghost var sound := Sound();
      var on := Step();
      if !on {
        return false;
      }
      var openable := *;
      if !openable {
        troubled := true;
        return false;
      }
      files := files[f := []];
      unsynced := unsynced + {f};
      if sound {
        ScratchKeepsSound(hash, before, wasUnsynced, files, unsynced, committed, stuck);
      }
      return true;
    }

    /** Appends; a failed append leaves some of the data. */
    method Append(f: File, data: seq<byte>) returns (ok: bool)
      requires f == TempFile || f == MetaTempFile
      modifies this
      ensures old(Sound()) ==> Sound()
      ensures Grows(old(committed), old(stuck), old(troubled), old(powered)) && stuck == old(stuck)
      ensures ok ==> powered && f in old(files) && files == old(files)[f := old(files)[f] + data] && troubled == old(troubled)
      ensures !ok && powered && f in old(files) ==> troubled
      ensures files.Keys == old(files).Keys && forall g | g in files && g != f && g !in old(unsynced) :: files[g] == old(files)[g]
      ensures old(unsynced) <= unsynced <= old(unsynced) + {f}
    {
      ghost var before, wasUnsynced := files, unsynced;
      ghost var sound := Sound();
      var on := Step();
      if !on || f !in files {
        return false;
      }
      ok := false;
      var stored: int := *;
      if 0 <= stored < |data| {
        troubled := true;
        files := files[f := files[f] + data[..stored]];
      } else {
        files := files[f := files[f] + data];
        ok := true;
      }
      unsynced := unsynced + {f};
      if sound {
        ScratchKeepsSound(hash, before, wasUnsynced, files, unsynced, committed, stuck);
      }
    }

    method Sync(f: File) returns (ok: bool)
      modifies this
      ensures old(Sound()) ==> Sound()
      ensures Grows(old(committed), old(stuck), old(troubled), old(powered)) && stuck == old(stuck)
      ensures ok ==> powered && unsynced == old(unsynced) - {f} && troubled == old(troubled)
      ensures !ok ==> unsynced == old(unsynced)
      ensures !ok && powered ==> troubled
      ensures if powered then files == old(files) else CutFrom(old(files), old(unsynced), files)
    {
      var on := Step();
      if !on {
        return false;
      }
      var flushed := *;
      if !flushed {
        troubled := true;
        return false;
      }
      unsynced := unsynced - {f};
      return true;
    }

    method Read(f: File) returns (content: Option<seq<byte>>)
      modifies this
      ensures old(Sound()) ==> Sound()
      ensures Grows(old(committed), old(stuck), old(troubled), old(powered)) && stuck == old(stuck) && unsynced == old(unsynced)
      ensures content.Some? ==> powered && f in old(files) && content.value == old(files)[f] && troubled == old(troubled)
      ensures powered && content == None ==> troubled || f !in old(files)
      ensures powered && f !in old(files) ==> troubled == old(troubled)
      ensures if powered then files == old(files) else CutFrom(old(files), old(unsynced), files)
    {
      var on := Step();
      if !on {
        return None;
      }
      var readable := *;
      if f !in files {
        return None;
      }
      if !readable {
        troubled := true;
        return None;
      }
      return Some(files[f]);
    }
  }
}
