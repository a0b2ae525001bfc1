/**
 pax: device numbers for an archive whose header fields may be too small.  Each file of
 a run is stored under a pair (device, inode) that no other file of the run, and no
 file already in the archive, is stored under.
 */
module PaxDevices {
  import BitStream

  const DEV_LIMIT := 0x8000_0000 // dev_t is a signed 32-bit number

  /** A remapping: inodes whose truncated bits are `truncBits` are stored under device `dev`. */
  datatype DList = DList(truncBits: nat, dev: nat)

  /** The device table and the last number tried. */
  datatype Devices = Devices(dtab: map<nat, seq<DList>>, lastdev: nat)

  datatype Stored = Stored(dev: nat, ino: nat)

  datatype Outcome = Outcome(t: Devices, stored: Stored, bad: bool)

  /** How many device and inode numbers the header fields can hold: powers of two. */
  datatype Fields = Fields(devs: nat, inos: nat)

  predicate Sensible(m: Fields) {
    0 < m.devs <= DEV_LIMIT && 0 < m.inos
  }

  function AddDev(t: Devices, dev: nat): Devices {
    if dev in t.dtab then t else t.(dtab := t.dtab[dev := []])
  }

  /** The first remapping in the list for these bits. */
  function Find(l: seq<DList>, truncBits: nat): (r: seq<DList>)
    ensures |r| <= 1 && forall e :: e in r ==> e in l && e.truncBits == truncBits
    ensures r == [] ==> forall e :: e in l ==> e.truncBits != truncBits
  {
    if l == [] then [] else if l[0].truncBits == truncBits then [l[0]] else Find(l[1..], truncBits)
  }

  /** The next number after `n` that the table does not have; the limit if there is none. */
  function NextFree(dtab: map<nat, seq<DList>>, n: nat): (r: nat)
    requires n < DEV_LIMIT
    ensures n < r <= DEV_LIMIT && (r < DEV_LIMIT ==> r !in dtab) && forall k :: n < k < r ==> k in dtab
    decreases DEV_LIMIT - n
  {
    if n + 1 == DEV_LIMIT then DEV_LIMIT
    else if n + 1 !in dtab then n + 1
    else NextFree(dtab, n + 1)
  }

  /** A new number for the bits, unless none is left that fits the field. */
  function Allocate(m: Fields, t: Devices, dev: nat, ino: nat): Outcome
    requires Sensible(m) && dev in t.dtab && t.lastdev < DEV_LIMIT
  {
    var nino := ino % m.inos;
    var n := NextFree(t.dtab, t.lastdev);
    if n >= m.devs then Outcome(t.(lastdev := if n < DEV_LIMIT then n else DEV_LIMIT - 1), Stored(dev, ino), true)
    else Outcome(Devices(t.dtab[n := []][dev := [DList(ino - nino, n)] + t.dtab[dev]], n), Stored(n, nino), false)
  }

  /** The table with a device that must be remapped from now on.  Inodes of it that are not
      truncated keep their device number, since some may have been stored already. */
  function Registered(m: Fields, t: Devices, dev: nat, truncBits: nat): Devices {
    t.(dtab := t.dtab[dev := if dev < m.devs && truncBits != 0 then [DList(0, dev)] else []])
  }

  /** What map_dev does. */
  function MapDev(m: Fields, t: Devices, dev: nat, ino: nat): Outcome
    requires Sensible(m) && t.lastdev < DEV_LIMIT
  {
    var nino := ino % m.inos;
    var truncBits := ino - nino;
    if dev in t.dtab then
      var found := Find(t.dtab[dev], truncBits);
      if found != [] then Outcome(t, Stored(found[0].dev, nino), false) else Allocate(m, t, dev, ino)
    else if truncBits == 0 && dev < m.devs then Outcome(t, Stored(dev, ino), false)
    else Allocate(m, Registered(m, t, dev, truncBits), dev, ino)
  }

  // ---------------------------------------------------------------- the program

  class DeviceTable {
    var dtab: map<nat, seq<DList>>
    var lastdev: nat

    ghost function State(): Devices
      reads this
    {
      Devices(dtab, lastdev)
    }

    constructor ()
      ensures State() == Devices(map[], 0)
    {
      dtab, lastdev := map[], 0;
    }

    /** chk_dev: looks a device up, and adds it if told to. */
    method ChkDev(dev: nat, add: bool) returns (found: bool)
      modifies this`dtab
      ensures found == (dev in old(dtab) || add)
      ensures State() == if add then AddDev(old(State()), dev) else old(State())
    {
      if dev in dtab { return true; }
      if !add { return false; }
      dtab := dtab[dev := []];
      found := true;
    }

    /** Looks for a device number that is not in use, and puts it in use. */
    method NextNumber(m: Fields) returns (ok: bool)
      requires Sensible(m) && lastdev < DEV_LIMIT
      modifies this
      ensures var n := NextFree(old(dtab), old(lastdev));
        && ok == (n < m.devs) && lastdev == (if n < DEV_LIMIT then n else DEV_LIMIT - 1)
        && dtab == if ok then old(dtab)[n := []] else old(dtab)
    {
      while true
        invariant dtab == old(dtab) && old(lastdev) <= lastdev < DEV_LIMIT
        invariant NextFree(dtab, lastdev) == NextFree(dtab, old(lastdev))
        decreases DEV_LIMIT - lastdev
      {
        if lastdev + 1 >= DEV_LIMIT { return false; } // the number would wrap around
        lastdev := lastdev + 1;
        var used := ChkDev(lastdev, false);
        if used { continue; }
        if lastdev >= m.devs { return false; }
        used := ChkDev(lastdev, true);
        return true;
      }
    }

    /** Makes sure that the device is in the table; if it was not, it is registered. */
    method Register(dev: nat, truncated: bool, trunc_bits: nat, m: Fields)
      requires dev !in dtab && truncated == (dev >= m.devs)
      modifies this`dtab
      ensures State() == Registered(m, old(State()), dev, trunc_bits)
    {
      var known := ChkDev(dev, true);
      if !truncated && trunc_bits != 0 {
        assert [DList(0, dev)] + [] == [DList(0, dev)];
        dtab := dtab[dev := [DList(0, dev)] + dtab[dev]];
        assert dtab == old(dtab)[dev := [DList(0, dev)]];
      }
    }

    /** map_dev. */
    method Map(dev: nat, ino: nat, m: Fields) returns (stored: Stored, bad: bool)
      requires Sensible(m) && lastdev < DEV_LIMIT && dev < DEV_LIMIT
      modifies this
      ensures Outcome(State(), stored, bad) == MapDev(m, old(State()), dev, ino)
      ensures lastdev < DEV_LIMIT
    {
      hide NextFree;
      var trc_dev := dev % m.devs != dev;
      var nino := ino % m.inos;
      var trunc_bits := ino - nino;
      stored, bad := Stored(dev, ino), true;
      Truncates(dev, m.devs);
      var known := ChkDev(dev, false);
      if known {
        var dpt := Find(dtab[dev], trunc_bits);
        if dpt != [] { return Stored(dpt[0].dev, nino), false; }
      } else {
        if trunc_bits == 0 && !trc_dev { return stored, false; }
        Register(dev, trc_dev, trunc_bits, m);
      }
      ghost var t := State();
      assert MapDev(m, old(State()), dev, ino) == Allocate(m, t, dev, ino);
      var ok := NextNumber(m);
      if !ok { return; }
      assert lastdev != dev;
      dtab := dtab[dev := [DList(trunc_bits, lastdev)] + dtab[dev]];
      stored, bad := Stored(lastdev, nino), false;
    }
  }

  lemma Truncates(dev: nat, devs: nat)
    requires devs > 0
    ensures dev % devs != dev <==> dev >= devs
  {
  }

  // ---------------------------------------------------------------- runs

  /** A file that was stored, and how. */
  datatype Written = Written(dev: nat, ino: nat, stored: Stored)

  /** The file was stored as it is, and its device is still not in the table. */
  predicate Plain(t: Devices, w: Written) {
    w.dev !in t.dtab && w.stored == Stored(w.dev, w.ino)
  }

  predicate Mapped(m: Fields, t: Devices, w: Written) {
    && w.dev in t.dtab && 0 < m.inos && w.stored.ino == w.ino % m.inos
    && DList(w.ino - w.stored.ino, w.stored.dev) in t.dtab[w.dev]
  }

  ghost predicate EntryOk(m: Fields, t: Devices, added: set<nat>, dev: nat, e: DList) {
    && e.dev < m.devs && e.dev in t.dtab && e.dev !in added
    && (e.dev == dev ==> e.truncBits == 0)
  }

  ghost predicate HasEntry(t: Devices, dev: nat, e: DList) {
    dev in t.dtab && e in t.dtab[dev]
  }

  /** What holds between the table, the devices of the old archive and the files stored. */
  ghost predicate Consistent(m: Fields, t: Devices, added: set<nat>, h: set<Written>) {
    && Sensible(m) && t.lastdev < DEV_LIMIT
    && (forall d :: d in added ==> d in t.dtab)
    && (forall d, e :: HasEntry(t, d, e) ==> EntryOk(m, t, added, d, e))
    && (forall d1, e1, d2, e2 :: HasEntry(t, d1, e1) && HasEntry(t, d2, e2) && e1.dev == e2.dev ==>
      d1 == d2 && e1 == e2)
    && (forall d, e1, e2 :: HasEntry(t, d, e1) && HasEntry(t, d, e2) && e1.truncBits == e2.truncBits ==> e1 == e2)
    && (forall w :: w in h ==> w.stored.dev < m.devs && w.stored.ino < m.inos && (Plain(t, w) || Mapped(m, t, w)))
  }

  /** The file cannot be stored as it is, or as files of its device have been stored before. */
  predicate NeedsNumber(m: Fields, t: Devices, dev: nat, ino: nat)
    requires Sensible(m)
  {
    var truncBits := ino - ino % m.inos;
    if dev in t.dtab then Find(t.dtab[dev], truncBits) == [] else truncBits != 0 || dev >= m.devs
  }

  /** The next number that neither the table nor the file itself has. */
  function NextNumber(t: Devices, dev: nat): (n: nat)
    requires t.lastdev < DEV_LIMIT
  {
    NextFree(AddDev(t, dev).dtab, t.lastdev)
  }

  /** The file needs a number, and the next one is the device of a file stored as it is. */
  ghost predicate Clash(m: Fields, t: Devices, h: set<Written>, dev: nat, ino: nat)
    requires Sensible(m) && t.lastdev < DEV_LIMIT
  {
    && NeedsNumber(m, t, dev, ino) && NextNumber(t, dev) < m.devs
    && exists w :: w in h && Plain(t, w) && w.dev == NextNumber(t, dev)
  }

  /** Only which devices are in the table matters for the next number. */
  lemma {:induction false} SameNext(d1: map<nat, seq<DList>>, d2: map<nat, seq<DList>>, n: nat)
    requires n < DEV_LIMIT && d1.Keys == d2.Keys
    ensures NextFree(d1, n) == NextFree(d2, n)
    decreases DEV_LIMIT - n
  {
    assert n + 1 in d1.Keys <==> n + 1 in d2.Keys;
    if n + 1 != DEV_LIMIT && n + 1 in d1 { SameNext(d1, d2, n + 1); }
  }

  /** A file that needs a number gets the next one. */
  lemma NumberGiven(m: Fields, t: Devices, dev: nat, ino: nat)
    requires Sensible(m) && t.lastdev < DEV_LIMIT && NeedsNumber(m, t, dev, ino)
    ensures var t' := if dev in t.dtab then t else Registered(m, t, dev, ino - ino % m.inos);
      && t'.lastdev == t.lastdev && dev in t'.dtab && MapDev(m, t, dev, ino) == Allocate(m, t', dev, ino)
      && NextFree(t'.dtab, t'.lastdev) == NextNumber(t, dev)
  {
    hide NextFree;
    var t' := if dev in t.dtab then t else Registered(m, t, dev, ino - ino % m.inos);
    assert t'.dtab.Keys == AddDev(t, dev).dtab.Keys;
    SameNext(t'.dtab, AddDev(t, dev).dtab, t.lastdev);
  }

  lemma Start(m: Fields, t: Devices, added: set<nat>)
    requires Sensible(m) && t == Devices(map d | d in added :: [], 0)
    ensures Consistent(m, t, added, {})
  {
  }

  lemma AllocateKeeps(m: Fields, t: Devices, added: set<nat>, h: set<Written>, dev: nat, ino: nat)
    requires Consistent(m, t, added, h) && dev in t.dtab && !Allocate(m, t, dev, ino).bad
    requires forall e :: e in t.dtab[dev] ==> e.truncBits != ino - ino % m.inos
    requires forall w :: w in h && Plain(t, w) ==> w.dev != NextFree(t.dtab, t.lastdev)
    ensures var r := Allocate(m, t, dev, ino); Consistent(m, r.t, added, h + {Written(dev, ino, r.stored)})
  {
    var r := Allocate(m, t, dev, ino);
    var nino := ino % m.inos;
    var n := r.stored.dev;
    assert n !in t.dtab && n != dev;
    var added1 := DList(ino - nino, n);
    assert r.t.dtab[dev] == [added1] + t.dtab[dev] && r.t.dtab[n] == [];
    forall d, e | HasEntry(r.t, d, e) ensures (HasEntry(t, d, e) && e.dev != n) || (d == dev && e == added1) {
      if d == dev { assert e in [added1] + t.dtab[dev]; }
      if HasEntry(t, d, e) { assert EntryOk(m, t, added, d, e); }
    }
    assert HasEntry(r.t, dev, added1);
    forall w | w in h ensures Plain(r.t, w) || Mapped(m, r.t, w) {
      if Mapped(m, t, w) && w.dev == dev {
        assert DList(w.ino - w.stored.ino, w.stored.dev) in [added1] + t.dtab[dev];
      }
    }
    assert Mapped(m, r.t, Written(dev, ino, r.stored));
  }

  lemma RegisterKeeps(m: Fields, t: Devices, added: set<nat>, h: set<Written>, dev: nat, truncBits: nat)
    requires Consistent(m, t, added, h) && dev !in t.dtab && (dev < m.devs ==> truncBits != 0)
    ensures Consistent(m, Registered(m, t, dev, truncBits), added, h)
  {
    var t' := Registered(m, t, dev, truncBits);
    forall d, e | HasEntry(t', d, e)
      ensures (HasEntry(t, d, e) && e.dev != dev) || (d == dev && e == DList(0, dev) && dev < m.devs) {
      if HasEntry(t, d, e) { assert EntryOk(m, t, added, d, e); }
    }
    forall w | w in h ensures Plain(t', w) || Mapped(m, t', w) {
      if Plain(t, w) && w.dev == dev {
        assert w.ino % m.inos == w.ino;
        assert DList(0, dev) in t'.dtab[dev];
      }
    }
  }

  /** A file already stored is stored the same way again. */
  lemma SameAgain(m: Fields, t: Devices, added: set<nat>, h: set<Written>, w: Written)
    requires Consistent(m, t, added, h) && w in h
    ensures MapDev(m, t, w.dev, w.ino) == Outcome(t, w.stored, false)
  {
    var tb := w.ino - w.ino % m.inos;
    if Mapped(m, t, w) {
      var e := DList(tb, w.stored.dev);
      assert HasEntry(t, w.dev, e);
      var found := Find(t.dtab[w.dev], tb);
      assert found[0] in found;
      assert HasEntry(t, w.dev, found[0]);
    } else {
      assert w.ino < m.inos && w.ino % m.inos == w.ino;
    }
  }

  /** Storing one more file keeps everything consistent, unless its new number clashes. */
  lemma MapKeeps(m: Fields, t: Devices, added: set<nat>, h: set<Written>, dev: nat, ino: nat)
    requires Consistent(m, t, added, h) && !MapDev(m, t, dev, ino).bad && !Clash(m, t, h, dev, ino)
    ensures var r := MapDev(m, t, dev, ino); Consistent(m, r.t, added, h + {Written(dev, ino, r.stored)})
  {
    var r := MapDev(m, t, dev, ino);
    var nino := ino % m.inos;
    var tb := ino - nino;
    var w := Written(dev, ino, r.stored);
    if NeedsNumber(m, t, dev, ino) {
      NumberGiven(m, t, dev, ino);
      if dev !in t.dtab { RegisterKeeps(m, t, added, h, dev, tb); }
      AllocateKeeps(m, if dev in t.dtab then t else Registered(m, t, dev, tb), added, h, dev, ino);
    } else if dev in t.dtab {
      var found := Find(t.dtab[dev], tb);
      assert found[0] in found;
      assert HasEntry(t, dev, found[0]) && EntryOk(m, t, added, dev, found[0]);
      assert Mapped(m, t, w);
    } else {
      assert Plain(t, w);
    }
  }

  /** No two files are stored alike, and none like a file of the old archive. */
  lemma StoredApart(m: Fields, t: Devices, added: set<nat>, h: set<Written>, w1: Written, w2: Written)
    requires Consistent(m, t, added, h) && w1 in h && w2 in h
    ensures w1.stored.dev < m.devs && w1.stored.ino < m.inos && w1.stored.dev !in added
    ensures w1.stored == w2.stored <==> w1.dev == w2.dev && w1.ino == w2.ino
  {
    if Mapped(m, t, w1) { assert HasEntry(t, w1.dev, DList(w1.ino - w1.stored.ino, w1.stored.dev)); }
    if Mapped(m, t, w2) { assert HasEntry(t, w2.dev, DList(w2.ino - w2.stored.ino, w2.stored.dev)); }
    SameAgain(m, t, added, h, w1);
    SameAgain(m, t, added, h, w2);
  }

  datatype File = File(dev: nat, ino: nat)

  /** How the files of a run are stored, as long as nothing goes bad. */
  function StoreAll(m: Fields, t: Devices, files: seq<File>): (r: Outcome)
    requires Sensible(m) && t.lastdev < DEV_LIMIT
    ensures r.t.lastdev < DEV_LIMIT
    decreases |files|
  {
    if files == [] then Outcome(t, Stored(0, 0), false)
    else
      var r := MapDev(m, t, files[0].dev, files[0].ino);
      if r.bad then r else StoreAll(m, r.t, files[1..])
  }

  /** File `k` of a run is stored as this. */
  function StoredAs(m: Fields, t: Devices, files: seq<File>, k: nat): Stored
    requires Sensible(m) && t.lastdev < DEV_LIMIT && k < |files|
    decreases k
  {
    var r := MapDev(m, t, files[0].dev, files[0].ino);
    if k == 0 || r.bad then r.stored else StoredAs(m, r.t, files[1..], k - 1)
  }

  /** No file of the run clashes with what has been stored by then. */
  ghost predicate ClashFree(m: Fields, t: Devices, h: set<Written>, files: seq<File>)
    requires Sensible(m) && t.lastdev < DEV_LIMIT
    decreases |files|
  {
    if files == [] then true
    else
      var f := files[0];
      var r := MapDev(m, t, f.dev, f.ino);
      !Clash(m, t, h, f.dev, f.ino) && (r.bad || ClashFree(m, r.t, h + {Written(f.dev, f.ino, r.stored)}, files[1..]))
  }

  /** After such a run its files are all on record. */
  lemma {:induction false} Recorded(m: Fields, t: Devices, added: set<nat>, h: set<Written>, files: seq<File>)
    returns (t': Devices, h': set<Written>)
    requires Consistent(m, t, added, h) && Sensible(m) && t.lastdev < DEV_LIMIT
    requires !StoreAll(m, t, files).bad && ClashFree(m, t, h, files)
    ensures h <= h' && Consistent(m, t', added, h')
    ensures forall k :: 0 <= k < |files| ==> Written(files[k].dev, files[k].ino, StoredAs(m, t, files, k)) in h'
    decreases |files|
  {
    hide Consistent, MapDev, Clash;
    if files == [] {
      t', h' := t, h;
    } else {
      var f := files[0];
      var r := MapDev(m, t, f.dev, f.ino);
      MapKeeps(m, t, added, h, f.dev, f.ino);
      t', h' := Recorded(m, r.t, added, h + {Written(f.dev, f.ino, r.stored)}, files[1..]);
      forall k | 0 <= k < |files| ensures Written(files[k].dev, files[k].ino, StoredAs(m, t, files, k)) in h' {
        if k > 0 { assert files[k] == files[1..][k - 1]; }
      }
    }
  }

  /** The devices of an old archive, recorded by add_dev. */
  function Recording(added: set<nat>): Devices {
    Devices(map d | d in added :: [], 0)
  }

  /** A run over any source devices, after an old archive's devices were recorded, in which no file
      clashes: what is stored fits the fields, equal files and only equal files are stored alike,
      and none is stored under a device of the old archive. */
  lemma RunApart(m: Fields, added: set<nat>, files: seq<File>, i: nat, j: nat)
    requires Sensible(m) && i < |files| && j < |files|
    requires !StoreAll(m, Recording(added), files).bad && ClashFree(m, Recording(added), {}, files)
    ensures var x, y := StoredAs(m, Recording(added), files, i), StoredAs(m, Recording(added), files, j);
      x.dev < m.devs && x.ino < m.inos && x.dev !in added && (x == y <==> files[i] == files[j])
  {
    hide MapDev, Clash;
    var t := Recording(added);
    Start(m, t, added);
    var t', h' := Recorded(m, t, added, {}, files);
    var x, y := StoredAs(m, t, files, i), StoredAs(m, t, files, j);
    StoredApart(m, t', added, h', Written(files[i].dev, files[i].ino, x), Written(files[j].dev, files[j].ino, y));
  }

  /** A run over one device never clashes. */
  lemma {:induction false} OneSource(m: Fields, t: Devices, h: set<Written>, files: seq<File>, s: nat)
    requires Sensible(m) && t.lastdev < DEV_LIMIT
    requires (forall f :: f in files ==> f.dev == s) && forall w :: w in h ==> w.dev == s
    ensures ClashFree(m, t, h, files)
    decreases |files|
  {
    hide MapDev, Clash;
    if files != [] {
      var f := files[0];
      var r := MapDev(m, t, f.dev, f.ino);
      assert f in files;
      NoClash(m, t, h, s, f.ino);
      MapWithin(m, t, f.dev, f.ino);
      OneSource(m, r.t, h + {Written(f.dev, f.ino, r.stored)}, files[1..], s);
    }
  }

  lemma MapWithin(m: Fields, t: Devices, dev: nat, ino: nat)
    requires Sensible(m) && t.lastdev < DEV_LIMIT
    ensures MapDev(m, t, dev, ino).t.lastdev < DEV_LIMIT
  {
  }

  lemma NoClash(m: Fields, t: Devices, h: set<Written>, s: nat, ino: nat)
    requires Sensible(m) && t.lastdev < DEV_LIMIT && forall w :: w in h ==> w.dev == s
    ensures !Clash(m, t, h, s, ino)
  {
  }

  /** So for one source device nothing else need be asked. */
  lemma RunOverOneDevice(m: Fields, added: set<nat>, files: seq<File>, s: nat, i: nat, j: nat)
    requires Sensible(m) && (forall f :: f in files ==> f.dev == s) && i < |files| && j < |files|
    requires !StoreAll(m, Recording(added), files).bad
    ensures var x, y := StoredAs(m, Recording(added), files, i), StoredAs(m, Recording(added), files, j);
      x.dev < m.devs && x.ino < m.inos && x.dev !in added && (x == y <==> files[i].ino == files[j].ino)
  {
    OneSource(m, Recording(added), {}, files, s);
    RunApart(m, added, files, i, j);
  }

  // ---------------------------------------------------------------- several source devices

  lemma FindsIt(l: seq<DList>, e: DList)
    requires l != [] && l[0] == e
    ensures Find(l, e.truncBits) == [e]
  {
  }

  lemma SameTruncation(ino: nat, w: nat, inos: nat)
    requires inos > 0 && w < inos
    ensures (ino - ino % inos + w) % inos == w
  {
    var q := ino / inos;
    assert ino - ino % inos == q * inos;
    assert (q * inos + w) / inos == q && (q * inos + w) % inos == w by { BitStream.DivRem(q, w, inos); }
  }

  /** With several source devices a clash is fatal: once a file has been given a number that is
      the device of a file stored as it is, there is a file that will be stored like that one. */
  lemma ClashCollides(m: Fields, t: Devices, added: set<nat>, h: set<Written>, dev: nat, ino: nat)
    returns (w: Written, ino': nat)
    requires Consistent(m, t, added, h) && Clash(m, t, h, dev, ino)
    ensures w in h && w.dev != dev
    ensures var r := MapDev(m, t, dev, ino);
      !r.bad && r.t.lastdev < DEV_LIMIT && MapDev(m, r.t, dev, ino') == Outcome(r.t, w.stored, false)
  {
    hide NextFree;
    NumberGiven(m, t, dev, ino);
    var r := MapDev(m, t, dev, ino);
    w :| w in h && Plain(t, w) && w.dev == NextNumber(t, dev);
    var tb := ino - ino % m.inos;
    ino' := tb + w.ino;
    SameTruncation(ino, w.ino, m.inos);
    assert ino' - ino' % m.inos == tb;
    FindsIt(r.t.dtab[dev], DList(tb, r.stored.dev));
    NextOutside(AddDev(t, dev).dtab, t.lastdev);
  }

  lemma NextOutside(dtab: map<nat, seq<DList>>, n: nat)
    requires n < DEV_LIMIT
    ensures NextFree(dtab, n) < DEV_LIMIT ==> NextFree(dtab, n) !in dtab
  {
  }

  /** The first `k` files, and then `f`. */
  function FirstAnd(files: seq<File>, k: nat, f: File): (s: seq<File>)
    requires k <= |files|
    ensures |s| == k + 1
  {
    files[..k] + [f]
  }

  /** A run with a clash can go wrong: after its first `k` files there is one more that would be
      stored like a different file before it. */
  lemma {:induction false} RunCollides(m: Fields, t: Devices, added: set<nat>, h: set<Written>, files: seq<File>)
    returns (k: nat, f: File, w: Written)
    requires Consistent(m, t, added, h) && Sensible(m) && t.lastdev < DEV_LIMIT && !ClashFree(m, t, h, files)
    ensures 0 < k <= |files| && w.dev != f.dev && StoredAs(m, t, FirstAnd(files, k, f), k) == w.stored
    ensures w in h || exists i :: 0 <= i < k && w == Written(files[i].dev, files[i].ino, StoredAs(m, t, files, i))
    decreases |files|
  {
    hide Consistent, MapDev, Clash;
    var f0 := files[0];
    var r := MapDev(m, t, f0.dev, f0.ino);
    if Clash(m, t, h, f0.dev, f0.ino) {
      var ino';
      w, ino' := ClashCollides(m, t, added, h, f0.dev, f0.ino);
      k, f := 1, File(f0.dev, ino');
      assert files[..1] + [f] == [f0, f] && [f0, f][1..] == [f];
    } else {
      MapKeeps(m, t, added, h, f0.dev, f0.ino);
      var w0 := Written(f0.dev, f0.ino, r.stored);
      var k1;
      k1, f, w := RunCollides(m, r.t, added, h + {w0}, files[1..]);
      k := k1 + 1;
      assert (files[..k] + [f])[1..] == files[1..][..k1] + [f];
      if w !in h {
        if w == w0 {
          assert w == Written(files[0].dev, files[0].ino, StoredAs(m, t, files, 0));
        } else {
          var i :| 0 <= i < k1 && w == Written(files[1..][i].dev, files[1..][i].ino, StoredAs(m, r.t, files[1..], i));
          assert files[i + 1] == files[1..][i];
        }
      }
    }
  }

  /** Two files of different devices that are stored alike in a cpio archive: the first is stored
      as it is, and the second is given the first's device number. */
  lemma TwoSourcesCollide()
    ensures var m := Fields(65536, 65536);
      var t := Devices(map[], 0);
      var files := [File(1, 5), File(2, 65541)];
      !StoreAll(m, t, files).bad && StoredAs(m, t, files, 0) == StoredAs(m, t, files, 1) == Stored(1, 5)
  {
    var m, t := Fields(65536, 65536), Devices(map[], 0);
    var files := [File(1, 5), File(2, 65541)];
    assert MapDev(m, t, 1, 5) == Outcome(t, Stored(1, 5), false);
    assert files[1..] == [File(2, 65541)];
    var t' := Registered(m, t, 2, 65536);
    assert NextFree(t'.dtab, 0) == 1;
    assert MapDev(m, t, 2, 65541).stored == Stored(1, 5);
    assert files[1..][1..] == [];
  }
}
