/** Runs, from a formatted disk, in which the file server loses the ownership of its blocks or
    stops (fs/fs.c). */
module Faults {
  import opened Common
  import opened Disk
  import opened Blocks
  import opened Format

  /** A server on a disk with one empty file. */
  method OneEmptyFile(bitmap: array<nat>) returns (server: FileServer, f: nat)
    requires bitmap.Length == BITMAP_WORDS
    modifies bitmap
    ensures fresh(server) && server.bitmap == bitmap && server.Valid() && f in server.files && server.free != {}
    ensures Tight(server.Now(), f) && server.files[f].size == 0 && server.files[f].indirect == 0
  {
    var file := HostFile(0, []);
    var root := HostDir([file]);
    assert SpaceFrom(root, 0) == Space(file) + SpaceFrom(root, 1);
    assert LeavesFrom(root, 0) == Leaves(file) + LeavesFrom(root, 1) == [file];
    var written;
    server, written := FormatAndMount(bitmap, root);
    assert NBLOCK - 1 in server.free;
    assert Leaves(root)[0] == HostFile(written[0].size, written[0].data);
    f := written[0].f;
  }

  /** The file's only block is b, the first of the disk's blocks not in use otherwise, and ones
      are written in it. */
  ghost predicate HasOnes(server: FileServer, f: nat, b: nat)
    reads server, server.bitmap
  {
    && server.Valid() && f in server.files && Tight(server.Now(), f) && server.files[f].indirect == 0
    && server.files[f].size == BLOCK_SIZE && Val(server.Now(), SlotOf(f, 0)) == b != 0
    && (forall c :: c in server.free ==> b <= c)
    && b in server.cached && b in server.content && server.content[b] == seq(NINDIRECT, _ => 1)
  }

  method WriteOnes(server: FileServer, f: nat) returns (b: nat)
    requires server.Valid() && f in server.files && server.free != {}
    requires Tight(server.Now(), f) && server.files[f].size == 0 && server.files[f].indirect == 0
    modifies server, server.bitmap
    ensures HasOnes(server, f, b)
  {
    ghost var start := server.Now();
    var ok := server.FileSetSize(f, BLOCK_SIZE, true);
    ghost var grown := server.Now();
    assert SlotOk(start, SlotOf(f, 0)) && Val(start, SlotOf(f, 0)) == 0;
    var r := server.FileMapBlock(f, 0, true, true);
    b := r.value;
    ghost var mapped := server.Now();
    server.StoreData(f, 0, seq(NINDIRECT, _ => 1));
    StoredIsTight(grown, mapped, server.Now(), f);
    assert SlotOk(mapped, SlotOf(f, 0)) && SlotOk(mapped, Indirect(f));
    assert Val(server.Now(), SlotOf(f, 0)) == b && Val(server.Now(), Indirect(f)) == 0;
  }

  /** Data is written to the file's only block and the file truncated: the block is free, the
      next to be taken, and its old words are still cached. */
  method LeaveStaleBlock(server: FileServer, f: nat)
    requires server.Valid() && f in server.files && server.free != {}
    requires Tight(server.Now(), f) && server.files[f].size == 0 && server.files[f].indirect == 0
    modifies server, server.bitmap
    ensures server.Valid() && f in server.files && server.files[f].indirect == 0 && !CleanNext(server.Now())
  {
    var b := WriteOnes(server, f);
    ghost var stored := server.Now();
    OnlyOneBlock(stored, f);
    var ok := server.FileSetSize(f, 0, true);
    FreedFirst(stored, server.Now(), f, b);
    assert IsNext(server.Now(), b) && server.content[b][NDIRECT] == 1;
  }

  lemma OnlyOneBlock(d: Disk, f: nat)
    requires Owned(d) && f in d.files && Tight(d, f) && d.files[f].size == BLOCK_SIZE
    ensures forall i :: 1 <= i < NINDIRECT ==> Val(d, SlotOf(f, i)) == 0
  {
    forall i | 1 <= i < NINDIRECT ensures Val(d, SlotOf(f, i)) == 0 {
      assert SlotOk(d, SlotOf(f, i)) && Beyond(SlotOf(f, i), f, BLOCK_SIZE);
    }
  }

  lemma StoredIsTight(grown: Disk, mapped: Disk, stored: Disk, f: nat)
    requires Owned(grown) && Owned(mapped) && Owned(stored) && f in grown.files && Tight(grown, f)
    requires grown.files[f].size == BLOCK_SIZE
    requires OnlySlots(grown, mapped, {Indirect(f), SlotOf(f, 0)}) && OnlySlots(mapped, stored, {})
    ensures f in stored.files && Tight(stored, f)
  {
    forall x | SlotOk(stored, x) && Beyond(x, f, stored.files[f].size)
      ensures Val(stored, x) == 0 {
      assert SlotOk(mapped, x) && SlotOk(grown, x) && Val(grown, x) == 0 && Val(mapped, x) == 0;
    }
  }

  lemma FreedFirst(d: Disk, t: Disk, f: nat, b: nat)
    requires Owned(d) && Owned(t) && f in d.files && Truncated(d, t, f, 0) && Val(d, SlotOf(f, 0)) == b != 0
    requires forall c :: c in d.free ==> b <= c
    requires forall i :: 1 <= i < NINDIRECT ==> Val(d, SlotOf(f, i)) == 0
    requires d.files[f].indirect == 0
    ensures f in t.files && t.files[f].indirect == 0 && IsNext(t, b)
  {
    assert SlotOwns(d, SlotOf(f, 0));
    assert Val(t, Indirect(f)) == 0;
    forall c | c in t.free ensures b <= c {
      if c !in d.free {
        assert BlockOwned(d, c);
        var x := d.owner[c];
        assert Val(d, x) == c;
        assert x.Indirect? || x == SlotOf(f, x.i);
      }
    }
  }

  /** Mount, grow, write, truncate, write far behind: no block ownership is left, and the
      number found in the old data is taken for the file's block. */
  method StaleIndirectBlockHappens(bitmap: array<nat>) returns (server: FileServer, f: nat)
    requires bitmap.Length == BITMAP_WORDS
    modifies bitmap
    ensures fresh(server) && !Ownable(server.Now())
  {
    server, f := OneEmptyFile(bitmap);
    LeaveStaleBlock(server, f);
    var r := server.FileMapBlock(f, NDIRECT, true, true);
  }

  /** A file made larger than its direct slots reach, without blocks, and made small again: the
      server stops. */
  method GrownFilePanics(bitmap: array<nat>) returns (ok: bool)
    requires bitmap.Length == BITMAP_WORDS
    modifies bitmap
    ensures !ok
  {
    var server, f := OneEmptyFile(bitmap);
    ok := server.FileSetSize(f, (NDIRECT + 1) * BLOCK_SIZE, true);
    ok := server.FileSetSize(f, 0, true);
  }
}
