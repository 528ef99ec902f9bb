/** Directories as bytes (fs.h, fs.c): a directory file is its entries, one after another, so that
    reading or writing one entry through the file layer is reading or replacing one element. */
module DirBytes {
  import opened Arith
  import opened FsBlocks
  import opened FsFiles
  import opened Links

  /** An entry that fits in a struct dirent: a 16-bit inode number and a name without NUL. */
  predicate Fits(dirsiz: nat, e: Entry) {
    e.inum < 0x1_0000 && |e.name| <= dirsiz && forall k :: 0 <= k < |e.name| ==> 0 < e.name[k] as int < 256
  }

  function Width(dirsiz: nat): nat { 2 + dirsiz }

  /** struct dirent: the inode number, low byte first, and the name padded with NUL. */
  function Encode(dirsiz: nat, e: Entry): (r: seq<Byte>)
    requires Fits(dirsiz, e)
    ensures |r| == Width(dirsiz)
  {
    seq(Width(dirsiz), k requires 0 <= k < Width(dirsiz) => EncodedByte(e, k))
  }

  function EncodedByte(e: Entry, k: nat): Byte
    requires e.inum < 0x1_0000 && forall j :: 0 <= j < |e.name| ==> 0 < e.name[j] as int < 256
  {
    if k == 0 then e.inum % 256 else if k == 1 then e.inum / 256
    else if k - 2 < |e.name| then e.name[k - 2] as int else 0
  }

  /** The name in a byte field: up to its first NUL, or all of it. */
  function NameIn(b: seq<Byte>): string {
    if |b| == 0 || b[0] == 0 then "" else [b[0] as char] + NameIn(b[1..])
  }

  function Decode(b: seq<Byte>): Entry
    requires |b| >= 2
  {
    var lo: nat, hi: nat := b[0], b[1];
    Entry(lo + 256 * hi, NameIn(b[2..]))
  }

  lemma {:induction false} NameBack(name: string, b: seq<Byte>)
    requires |name| <= |b| && forall k :: 0 <= k < |name| ==> 0 < name[k] as int < 256 && b[k] as int == name[k] as int
    requires |name| < |b| ==> b[|name|] == 0
    ensures NameIn(b) == name
  {
    if |name| > 0 {
      NameBack(name[1..], b[1..]);
      assert name == [name[0]] + name[1..];
    }
  }

  /** Reading back a written entry gives the entry. */
  lemma EntryRoundTrip(dirsiz: nat, e: Entry)
    requires Fits(dirsiz, e)
    ensures Decode(Encode(dirsiz, e)) == e
  {
    NameBack(e.name, Encode(dirsiz, e)[2..]);
  }

  // ----- whole directories

  predicate AllFit(dirsiz: nat, ents: seq<Entry>) {
    forall k :: 0 <= k < |ents| ==> Fits(dirsiz, ents[k])
  }

  /** The contents of a directory file. */
  function Bytes(dirsiz: nat, ents: seq<Entry>): (r: seq<int>)
    requires AllFit(dirsiz, ents)
    ensures |r| == |ents| * Width(dirsiz)
  {
    seq(|ents| * Width(dirsiz), p requires 0 <= p < |ents| * Width(dirsiz) => ByteOf(dirsiz, ents, p))
  }

  function ByteOf(dirsiz: nat, ents: seq<Entry>, p: nat): int
    requires AllFit(dirsiz, ents) && p < |ents| * Width(dirsiz)
  {
    Inside(p, |ents|, Width(dirsiz));
    EncodedByte(ents[p / Width(dirsiz)], p % Width(dirsiz)) as int
  }

  lemma Inside(p: nat, n: nat, w: nat)
    requires p < n * w && w > 0
    ensures p / w < n
  {
    DivMod(p, w);
    Cancel(p / w, n, w);
  }

  /** The bytes readi gives for entry k are that entry's. */
  lemma ReadsEntry(dirsiz: nat, ents: seq<Entry>, k: nat, j: nat)
    requires AllFit(dirsiz, ents) && k < |ents| && j < Width(dirsiz)
    ensures k * Width(dirsiz) + j < |Bytes(dirsiz, ents)|
    ensures Bytes(dirsiz, ents)[k * Width(dirsiz) + j] == Encode(dirsiz, ents[k])[j] as int
  {
    var w := Width(dirsiz);
    OneMore(k, w);
    Monotone(k + 1, |ents|, w);
    Quotient(k * w + j, k, j, w);
  }

  lemma SlotStart(dirsiz: nat, ents: seq<Entry>, k: nat)
    requires AllFit(dirsiz, ents) && k <= |ents|
    ensures k * Width(dirsiz) <= |Bytes(dirsiz, ents)|
  {
    Monotone(k, |ents|, Width(dirsiz));
  }

  /** Writing an entry at slot k, or at the end, makes the file the encoding of the directory with
      that entry set: what dirlink and unlink do with writei is what SetEntry does to the entries. */
  lemma WritesEntry(dirsiz: nat, ents: seq<Entry>, k: nat, e: Entry)
    requires AllFit(dirsiz, ents) && k <= |ents| && Fits(dirsiz, e)
    ensures k * Width(dirsiz) <= |Bytes(dirsiz, ents)| && AllFit(dirsiz, SetEntry(ents, k, e))
    ensures Splice(Bytes(dirsiz, ents), k * Width(dirsiz), Encode(dirsiz, e)) == Bytes(dirsiz, SetEntry(ents, k, e))
  {
    hide Bytes, Encode, Fits, Splice;
    SlotStart(dirsiz, ents, k);
    SetEntryFits(dirsiz, ents, k, e);
    var w := Width(dirsiz);
    SplicedLength(dirsiz, ents, k, e);
    var x, y := Splice(Bytes(dirsiz, ents), k * w, Encode(dirsiz, e)), Bytes(dirsiz, SetEntry(ents, k, e));
    forall p: nat | p < |x| ensures x[p] == y[p] {
      SplicedByte(dirsiz, ents, k, e, p);
    }
  }

  lemma SetEntryFits(dirsiz: nat, ents: seq<Entry>, k: nat, e: Entry)
    requires AllFit(dirsiz, ents) && k <= |ents| && Fits(dirsiz, e)
    ensures AllFit(dirsiz, SetEntry(ents, k, e))
  {
  }

  lemma SplicedLength(dirsiz: nat, ents: seq<Entry>, k: nat, e: Entry)
    requires AllFit(dirsiz, ents) && k <= |ents| && Fits(dirsiz, e) && AllFit(dirsiz, SetEntry(ents, k, e))
    requires k * Width(dirsiz) <= |Bytes(dirsiz, ents)|
    ensures |Splice(Bytes(dirsiz, ents), k * Width(dirsiz), Encode(dirsiz, e))| == |Bytes(dirsiz, SetEntry(ents, k, e))|
  {
    hide Bytes, Encode, Fits, Splice, AllFit;
    SameLength(|ents|, k, Width(dirsiz));
  }

  lemma SplicedByte(dirsiz: nat, ents: seq<Entry>, k: nat, e: Entry, p: nat)
    requires AllFit(dirsiz, ents) && k <= |ents| && Fits(dirsiz, e) && AllFit(dirsiz, SetEntry(ents, k, e))
    requires k * Width(dirsiz) <= |Bytes(dirsiz, ents)| && p < |Bytes(dirsiz, SetEntry(ents, k, e))|
    ensures p < |Splice(Bytes(dirsiz, ents), k * Width(dirsiz), Encode(dirsiz, e))|
    ensures Splice(Bytes(dirsiz, ents), k * Width(dirsiz), Encode(dirsiz, e))[p] == Bytes(dirsiz, SetEntry(ents, k, e))[p]
  {
    hide Bytes, Encode, Fits, Splice, AllFit;
    DivMod(p, Width(dirsiz));
    Inside(p, |SetEntry(ents, k, e)|, Width(dirsiz));
    WritesByte(dirsiz, ents, k, e, p / Width(dirsiz), p % Width(dirsiz));
  }

  lemma SameLength(n: nat, k: nat, w: nat)
    requires k <= n
    ensures k == n ==> n * w + w == (k + 1) * w
    ensures k < n ==> k * w + w <= n * w
  {
    OneMore(k, w);
    if k < n {
      Monotone(k + 1, n, w);
    }
  }

  /** Byte j of entry q after the write. */
  lemma WritesByte(dirsiz: nat, ents: seq<Entry>, k: nat, e: Entry, q: nat, j: nat)
    requires AllFit(dirsiz, ents) && k <= |ents| && Fits(dirsiz, e) && AllFit(dirsiz, SetEntry(ents, k, e))
    requires q < |SetEntry(ents, k, e)| && j < Width(dirsiz) && k * Width(dirsiz) <= |Bytes(dirsiz, ents)|
    ensures var x, y := Splice(Bytes(dirsiz, ents), k * Width(dirsiz), Encode(dirsiz, e)), Bytes(dirsiz, SetEntry(ents, k, e));
      var p := q * Width(dirsiz) + j;
      p < |x| && p < |y| && x[p] == y[p]
  {
    hide Bytes, Encode, AllFit, Fits;
    var w := Width(dirsiz);
    ReadsEntry(dirsiz, SetEntry(ents, k, e), q, j);
    InSlot(q, j, k, w);
    if q != k {
      ReadsEntry(dirsiz, ents, q, j);
    }
  }

  lemma InSlot(q: nat, j: nat, k: nat, w: nat)
    requires j < w
    ensures k * w <= q * w + j < k * w + w <==> q == k
  {
    if k * w <= q * w + j < k * w + w {
      Quotient(q * w + j, q, j, w);
      Quotient(q * w + j, k, q * w + j - k * w, w);
    }
  }
}
