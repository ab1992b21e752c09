// Friendly names of fingerprint templates: the name table in RAM and the file it is saved to
// and loaded from (src/fido/cbor_bio_enroll.c).
module BioNames {
  import opened Basics

  const SLOTS: nat := 164
  const NAME_MAX: nat := 64
  const HEADER: bytes := [0x42, 0x49, 0x4F, 0x31, 1]

  // bio_template_names and bio_template_name_set
  datatype Table = Table(text: seq<bytes64>, named: seq<bool>)

  predicate Shaped(t: Table) {
    |t.text| == SLOTS && |t.named| == SLOTS
  }

  // Every buffer holds a terminated string, as readers of the table expect.
  predicate Terminated(t: Table) {
    Shaped(t) && forall id :: 0 <= id < SLOTS ==> |Cut(t.text[id])| < NAME_MAX
  }

  // The name an enumeration shows.
  function Visible(t: Table, id: nat): bytes
    requires Shaped(t) && id < SLOTS
  {
    if t.named[id] then Cut(t.text[id]) else []
  }

  function Blank(): Table {
    Table(seq(SLOTS, _ => Nul()), seq(SLOTS, _ => false))
  }

  function Nul(): bytes64 { seq(NAME_MAX, _ => 0) }

  // ---------- saving ----------

  // strnlen(name, 63) bytes of it
  function Kept(name: bytes64): (r: bytes)
    ensures |r| < NAME_MAX
  {
    Cut(name[..NAME_MAX - 1])
  }

  function Entry(t: Table, id: nat): bytes
    requires Shaped(t) && id < SLOTS
  {
    if t.named[id] then [id, |Kept(t.text[id])|] + Kept(t.text[id]) else []
  }

  // The entries of the first n slots.
  function Entries(t: Table, n: nat): bytes
    requires Shaped(t) && n <= SLOTS
  {
    if n == 0 then [] else Entries(t, n - 1) + Entry(t, n - 1)
  }

  function Saved(t: Table): bytes
    requires Shaped(t)
  {
    HEADER + Entries(t, SLOTS)
  }

  lemma EntriesNext(t: Table, n: nat)
    requires Shaped(t) && n < SLOTS
    ensures |Entries(t, n + 1)| == |Entries(t, n)| + |Entry(t, n)| && |Entry(t, n)| <= 65
  {
  }

  lemma {:induction false} EntriesBound(t: Table, n: nat)
    requires Shaped(t) && n <= SLOTS
    ensures |Entries(t, n)| <= 65 * n
  {
    if n > 0 {
      EntriesBound(t, n - 1);
      EntriesNext(t, n - 1);
    }
  }

  lemma SavedFits(t: Table)
    requires Shaped(t)
    ensures 5 <= |Saved(t)| <= 10665 < 0x1_0000
  {
    EntriesBound(t, SLOTS);
  }

  // The file up to the entries of the first n slots.
  function Begun(t: Table, n: nat): bytes
    requires Shaped(t) && n <= SLOTS
  {
    HEADER + Entries(t, n)
  }

  lemma BegunNext(t: Table, n: nat)
    requires Shaped(t) && n < SLOTS
    ensures Begun(t, n + 1) == Begun(t, n) + Entry(t, n) && |Begun(t, n + 1)| <= |Saved(t)|
  {
    EntriesGrow(t, n + 1, SLOTS);
    Associate(HEADER, Entries(t, n), Entry(t, n));
  }

  // ---------- loading ----------

  // memcpy over the start of the buffer, and a NUL behind it.
  function Overwritten(old_: bytes64, d: bytes): bytes64
    requires |d| < NAME_MAX
  {
    d + [0] + old_[|d| + 1..]
  }

  function Taken(t: Table, id: nat, d: bytes): Table
    requires Shaped(t)
  {
    if id < SLOTS && 0 < |d| < NAME_MAX
    then Table(t.text[id := Overwritten(t.text[id], d)], t.named[id := true])
    else t
  }

  function Parse(rest: bytes, t: Table): (r: Table)
    requires Shaped(t)
    ensures Shaped(r)
    decreases |rest|
  {
    if |rest| < 2 || 2 + rest[1] > |rest| then t
    else Parse(rest[2 + rest[1]..], Taken(t, rest[0], rest[2..2 + rest[1]]))
  }

  function Loaded(file: bytes): (r: Table)
    ensures Shaped(r)
  {
    if |file| < 5 || file[..5] != HEADER then Blank() else Parse(file[5..], Blank())
  }

  // ---------- the table in RAM ----------

  class Names {
    const text: array<bytes64>
    const named: array<bool>
    const hasFile: bool
    var loaded: bool
    var file: bytes

    ghost predicate Valid()
      reads this
    {
      text.Length == SLOTS && named.Length == SLOTS && (!hasFile ==> file == [])
    }

    ghost function Now(): Table
      reads this, text, named
    {
      Table(text[..], named[..])
    }

    // A file system may lack the file altogether.
    constructor (hasFile: bool, file: bytes)
      requires !hasFile ==> file == []
      ensures Valid() && fresh(text) && fresh(named) && !loaded && Now() == Blank()
      ensures this.hasFile == hasFile && this.file == file
    {
      this.hasFile := hasFile;
      text := new bytes64[SLOTS](_ => Nul());
      named := new bool[SLOTS](_ => false);
      loaded := false;
      this.file := file;
    }

    method ClearCache()
      requires Valid()
      modifies text, named
      ensures Now() == Blank()
    {
      forall i | 0 <= i < SLOTS { text[i] := Nul(); }
      forall i | 0 <= i < SLOTS { named[i] := false; }
    }

    method Take(id: nat, d: bytes)
      requires Valid()
      modifies text, named
      ensures Now() == Taken(old(Now()), id, d)
    {
      if id < SLOTS && |d| < NAME_MAX {
        if |d| > 0 {
          text[id] := Overwritten(text[id], d);
          named[id] := true;
        }
      }
    }

    // Ends after at most half as many turns as the file has bytes, and reads none past its end.
    method Load()
      requires Valid()
      modifies text, named, this`loaded
      ensures loaded && Now() == Loaded(file)
    {
      ClearCache();
      loaded := true;
      if |file| < 5 || file[..4] != HEADER[..4] || file[4] != HEADER[4] { return; }
      assert file[..5] == HEADER;
      var off := 5;
      while off + 2 <= |file|
        invariant loaded && 5 <= off <= |file| && Shaped(Now())
        invariant Parse(file[off..], Now()) == Loaded(file)
      {
        var id, n := file[off], file[off + 1];
        ghost var rest, t := file[off..], Now();
        if off + 2 + n > |file| { break; }
        assert rest[2..2 + n] == file[off + 2..off + 2 + n] && rest[2 + n..] == file[off + 2 + n..];
        Take(id, file[off + 2..off + 2 + n]);
        off := off + 2 + n;
      }
    }

    method EnsureLoaded()
      requires Valid()
      modifies text, named, this`loaded
      ensures loaded && Now() == if old(loaded) then old(Now()) else Loaded(file)
    {
      if !loaded { Load(); }
    }

    method Needed() returns (needed: nat)
      requires Valid()
      ensures needed == |Saved(Now())|
    {
      needed := 5;
      for i := 0 to SLOTS
        invariant needed == 5 + |Entries(Now(), i)|
      {
        if named[i] { needed := needed + 2 + |Kept(text[i])|; }
      }
    }

    method Fill(buf: array<byte>) returns (off: nat)
      requires Valid() && buf.Length == |Saved(Now())|
      modifies buf
      ensures Now() == old(Now()) && off == buf.Length && buf[..] == Saved(Now())
    {
      ghost var t := Now();
      Append(buf, 0, HEADER);
      off := 5;
      assert buf[..5] == Begun(t, 0);
      for i := 0 to SLOTS
        invariant Now() == t && off == |Begun(t, i)| <= buf.Length && buf[..off] == Begun(t, i)
      {
        BegunNext(t, i);
        off := FillOne(buf, off, i);
      }
    }

    method FillOne(buf: array<byte>, start: nat, i: nat) returns (off: nat)
      requires Valid() && i < SLOTS && start + |Entry(Now(), i)| <= buf.Length
      modifies buf
      ensures Now() == old(Now()) && off == start + |Entry(Now(), i)| && buf[..off] == old(buf[..start]) + Entry(Now(), i)
    {
      off := start;
      if named[i] {
        var n := |Kept(text[i])|;
        Append(buf, off, [i, n] + Kept(text[i]));
        off := off + 2 + n;
      }
    }

    // One loop adds up the size, the other fills a buffer of it. Without a file nothing
    // happens; otherwise the write may fail.
    method Save(writes: bool) returns (ok: bool)
      requires Valid()
      modifies text, named, this`loaded, this`file
      ensures Valid() && ok == (hasFile && writes)
      ensures loaded == (old(loaded) || hasFile)
      ensures Now() == if old(loaded) || !hasFile then old(Now()) else Loaded(old(file))
      ensures file == if ok then Saved(Now()) else old(file)
    {
      if !hasFile { return false; }
      EnsureLoaded();
      var needed := Needed();
      var buf := new byte[needed](_ => 0);
      var off := Fill(buf);
      if writes { file := buf[..off]; }
      return writes;
    }

    static method Append(buf: array<byte>, off: nat, d: bytes)
      requires off + |d| <= buf.Length
      modifies buf
      ensures buf[..off + |d|] == old(buf[..off]) + d
    {
      forall i | 0 <= i < |d| { buf[off + i] := d[i]; }
      assert buf[..off + |d|] == buf[..off] + d;
    }

    // The outcome of the save is not looked at.
    method SetFriendlyName(id: nat, name: bytes, writes: bool) returns (ok: bool)
      requires Valid() && loaded && id < SLOTS
      modifies text, named, this`loaded, this`file
      ensures Valid() && loaded && ok == (|name| < NAME_MAX)
      ensures Now() == if ok then Named(old(Now()), id, name) else old(Now())
      ensures file == if ok && hasFile && writes then Saved(Now()) else old(file)
    {
      if |name| >= NAME_MAX { return false; }
      text[id] := Overwritten(text[id], name);
      named[id] := true;
      var _ := Save(writes);
      return true;
    }

    // After an enrolment or a removal.
    method Forget(id: nat, writes: bool)
      requires Valid() && loaded && id < SLOTS
      modifies text, named, this`loaded, this`file
      ensures Valid() && loaded && Now() == Forgotten(old(Now()), id)
      ensures file == if hasFile && writes then Saved(Now()) else old(file)
    {
      named[id] := false;
      text[id] := Nul();
      var _ := Save(writes);
    }
  }

  function Named(t: Table, id: nat, name: bytes): Table
    requires Shaped(t) && id < SLOTS && |name| < NAME_MAX
  {
    Table(t.text[id := Overwritten(t.text[id], name)], t.named[id := true])
  }

  function Forgotten(t: Table, id: nat): Table
    requires Shaped(t) && id < SLOTS
  {
    Table(t.text[id := Nul()], t.named[id := false])
  }

  lemma {:induction false} EntriesGrow(t: Table, m: nat, n: nat)
    requires Shaped(t) && m <= n <= SLOTS
    ensures |Entries(t, m)| <= |Entries(t, n)|
  {
    if m < n {
      EntriesNext(t, n - 1);
      EntriesGrow(t, m, n - 1);
    }
  }

  // ---------- round trip ----------

  lemma {:induction false} CutIs(b: bytes, r: bytes)
    requires |r| <= |b| && r == b[..|r|] && (|r| < |b| ==> b[|r|] == 0) && forall i :: 0 <= i < |r| ==> r[i] != 0
    ensures Cut(b) == r
  {
    if r != [] {
      assert r[0] == b[0] && b[1..][..|r| - 1] == r[1..];
      CutIs(b[1..], r[1..]);
    }
  }

  // A terminated string loses nothing when it is cut to 63 bytes.
  lemma KeptIsShown(name: bytes64)
    requires |Cut(name)| < NAME_MAX
    ensures Kept(name) == Cut(name)
  {
    CutIs(name[..NAME_MAX - 1], Cut(name));
  }

  lemma TakenShows(t: Table, id: nat, d: bytes, k: nat)
    requires Shaped(t) && id < SLOTS && k < SLOTS && |d| < NAME_MAX && forall i :: 0 <= i < |d| ==> d[i] != 0
    ensures Visible(Taken(t, id, d), k) == if k == id && d != [] then d else Visible(t, k)
  {
    if d != [] { CutIs(Overwritten(t.text[id], d), d); }
  }

  // The entries of slots n and above.
  function EntriesFrom(t: Table, n: nat): bytes
    requires Shaped(t) && n <= SLOTS
    decreases SLOTS - n
  {
    if n == SLOTS then [] else Entry(t, n) + EntriesFrom(t, n + 1)
  }

  lemma {:induction false} EntriesSplit(t: Table, n: nat, all: nat)
    requires Shaped(t) && n <= all == SLOTS
    ensures Entries(t, all) == Entries(t, n) + EntriesFrom(t, n)
    decreases SLOTS - n
  {
    if n < all {
      EntriesSplit(t, n + 1, all);
      Associate(Entries(t, n), Entry(t, n), EntriesFrom(t, n + 1));
    } else {
      Associate(Entries(t, n), [], []);
    }
  }

  lemma ParseEntry(t: Table, n: nat, rest: bytes, r: Table)
    requires Shaped(t) && n < SLOTS && t.named[n] && Shaped(r)
    ensures Parse(Entry(t, n) + rest, r) == Parse(rest, Taken(r, n, Kept(t.text[n])))
  {
    var d := Kept(t.text[n]);
    var all := Entry(t, n) + rest;
    assert all[0] == n && all[1] == |d| && all[2..2 + |d|] == d && all[2 + |d|..] == rest;
  }

  // The table after reading back what was saved of slot n.
  function ReadBack(t: Table, n: nat, r: Table): (q: Table)
    requires Shaped(t) && n < SLOTS && Shaped(r)
    ensures Shaped(q)
  {
    if t.named[n] then Taken(r, n, Kept(t.text[n])) else r
  }

  // It shows the name of slot n, if it has one, and nothing else changes.
  lemma ReadBackShows(t: Table, n: nat, r: Table, k: nat)
    requires Terminated(t) && n < SLOTS && Shaped(r) && k < SLOTS
    ensures Visible(ReadBack(t, n, r), k) == if k == n && Visible(t, n) != [] then Visible(t, n) else Visible(r, k)
  {
    KeptIsShown(t.text[n]);
    TakenShows(r, n, Kept(t.text[n]), k);
  }

  lemma ParseOne(t: Table, n: nat, r: Table)
    requires Shaped(t) && n < SLOTS && Shaped(r)
    ensures Parse(EntriesFrom(t, n), r) == Parse(EntriesFrom(t, n + 1), ReadBack(t, n, r))
  {
    if t.named[n] {
      ParseEntry(t, n, EntriesFrom(t, n + 1), r);
    } else {
      Nothing(EntriesFrom(t, n + 1));
    }
  }

  // The table after reading back what was saved of slot n and all later ones.
  function AllBack(t: Table, n: nat, r: Table): (q: Table)
    requires Shaped(t) && n <= SLOTS && Shaped(r)
    ensures Shaped(q)
    decreases SLOTS - n
  {
    if n == SLOTS then r else AllBack(t, n + 1, ReadBack(t, n, r))
  }

  lemma {:induction false} ParseAll(t: Table, n: nat, r: Table)
    requires Shaped(t) && n <= SLOTS && Shaped(r)
    ensures Parse(EntriesFrom(t, n), r) == AllBack(t, n, r)
    decreases SLOTS - n
  {
    if n < SLOTS {
      ParseOne(t, n, r);
      ParseAll(t, n + 1, ReadBack(t, n, r));
    }
  }

  lemma {:induction false} AllBackShows(t: Table, n: nat, r: Table, k: nat)
    requires Terminated(t) && n <= SLOTS && Shaped(r) && k < SLOTS
    requires k >= n ==> Visible(r, k) == []
    ensures Visible(AllBack(t, n, r), k) == if k >= n then Visible(t, k) else Visible(r, k)
    decreases SLOTS - n
  {
    if n < SLOTS {
      ReadBackShows(t, n, r, k);
      AllBackShows(t, n + 1, ReadBack(t, n, r), k);
    }
  }

  lemma LoadedSaved(t: Table)
    requires Shaped(t)
    ensures Loaded(Saved(t)) == Parse(EntriesFrom(t, 0), Blank())
  {
    EntriesSplit(t, 0, SLOTS);
    Nothing(EntriesFrom(t, 0));
    Parts(HEADER, Entries(t, SLOTS));
  }

  // Every slot shows the same name after a save and a load.
  lemma NamesSurvive(t: Table, k: nat)
    requires Terminated(t) && k < SLOTS
    ensures Visible(Loaded(Saved(t)), k) == Visible(t, k)
  {
    LoadedSaved(t);
    ParseAll(t, 0, Blank());
    AllBackShows(t, 0, Blank(), k);
  }

  lemma OverwrittenTerminated(b: bytes64, d: bytes)
    requires |d| < NAME_MAX
    ensures Cut(Overwritten(b, d)) == Cut(d) && |Cut(Overwritten(b, d))| < NAME_MAX
  {
    var o := Overwritten(b, d);
    assert o[..|d|] == d && o[|d|] == 0;
    assert o[..|Cut(d)|] == d[..|Cut(d)|];
    CutIs(o, Cut(d));
  }

  lemma {:induction false} ParseTerminated(rest: bytes, t: Table)
    requires Terminated(t)
    ensures Terminated(Parse(rest, t))
    decreases |rest|
  {
    if |rest| >= 2 && 2 + rest[1] <= |rest| {
      var d := rest[2..2 + rest[1]];
      if rest[0] < SLOTS && 0 < |d| < NAME_MAX { OverwrittenTerminated(t.text[rest[0]], d); }
      ParseTerminated(rest[2 + rest[1]..], Taken(t, rest[0], d));
    }
  }

  // Whatever the file holds, the loaded table is terminated in every slot.
  lemma LoadedTerminated(file: bytes)
    ensures Terminated(Loaded(file))
  {
    assert Cut(Nul()) == [];
    if |file| >= 5 { ParseTerminated(file[5..], Blank()); }
  }

  lemma NamedShows(t: Table, id: nat, name: bytes, k: nat)
    requires Terminated(t) && id < SLOTS && k < SLOTS && |name| < NAME_MAX
    ensures Visible(Named(t, id, name), k) == if k == id then Cut(name) else Visible(t, k)
  {
    OverwrittenTerminated(t.text[id], name);
  }

  lemma NamedTerminated(t: Table, id: nat, name: bytes)
    requires Terminated(t) && id < SLOTS && |name| < NAME_MAX
    ensures Terminated(Named(t, id, name))
  {
    OverwrittenTerminated(t.text[id], name);
  }

  lemma ForgottenShows(t: Table, id: nat, k: nat)
    requires Terminated(t) && id < SLOTS && k < SLOTS
    ensures Terminated(Forgotten(t, id))
    ensures Visible(Forgotten(t, id), k) == if k == id then [] else Visible(t, k)
  {
    assert Cut(Nul()) == [];
  }

  // A name that was set shows up to its first NUL after a restart, all other names as before;
  // a forgotten name is gone.
  lemma SetNameSurvives(t: Table, id: nat, name: bytes, k: nat)
    requires Terminated(t) && id < SLOTS && k < SLOTS && |name| < NAME_MAX
    ensures Visible(Loaded(Saved(Named(t, id, name))), k) == if k == id then Cut(name) else Visible(t, k)
    ensures Visible(Loaded(Saved(Forgotten(t, id))), k) == if k == id then [] else Visible(t, k)
  {
    NamedTerminated(t, id, name);
    NamedShows(t, id, name, k);
    ForgottenShows(t, id, k);
    NamesSurvive(Named(t, id, name), k);
    NamesSurvive(Forgotten(t, id), k);
  }

  // ---------- any file ----------

  // An entry of a names file: the slot and the name's bytes.
  datatype FileEntry = FileEntry(id: byte, name: bytes)

  function Written(es: seq<FileEntry>): bytes
    requires AllShort(es)
  {
    if es == [] then [] else [es[0].id, |es[0].name|] + es[0].name + Written(es[1..])
  }

  predicate AllShort(es: seq<FileEntry>) {
    forall i :: 0 <= i < |es| ==> |es[i].name| < 256
  }

  // The name that the last entry gives this slot; one of no bytes, or of 64 and more, gives none.
  function LastName(es: seq<FileEntry>, id: nat, otherwise: bytes): bytes {
    if es == [] then otherwise
    else
      var n := |es| - 1;
      if es[n].id == id && 1 <= |es[n].name| <= 63 then Cut(es[n].name) else LastName(es[..n], id, otherwise)
  }

  // The beginning of an entry that is not all there.
  predicate Unfinished(tail: bytes) {
    |tail| < 2 || 2 + tail[1] > |tail|
  }

  lemma {:induction false} LastNameFirst(e: FileEntry, es: seq<FileEntry>, id: nat, otherwise: bytes)
    ensures LastName([e] + es, id, otherwise)
            == LastName(es, id, if e.id == id && 1 <= |e.name| <= 63 then Cut(e.name) else otherwise)
    decreases |es|
  {
    var all, n := [e] + es, |es|;
    if es == [] {
      assert all[..n] == [];
    } else {
      assert all[..n] == [e] + es[..n - 1] && all[n] == es[n - 1];
      LastNameFirst(e, es[..n - 1], id, otherwise);
    }
  }

  lemma EntryShows(t: Table, e: FileEntry, id: nat)
    requires Shaped(t) && id < SLOTS
    ensures Visible(Taken(t, e.id, e.name), id) == if e.id == id && 1 <= |e.name| <= 63 then Cut(e.name) else Visible(t, id)
  {
    if e.id == id && 1 <= |e.name| <= 63 { OverwrittenTerminated(t.text[id], e.name); }
  }

  lemma WrittenFirst(es: seq<FileEntry>, tail: bytes, t: Table)
    requires es != [] && AllShort(es) && Shaped(t)
    ensures Parse(Written(es) + tail, t) == Parse(Written(es[1..]) + tail, Taken(t, es[0].id, es[0].name))
  {
    var e, rest := es[0], Written(es[1..]) + tail;
    var all := Written(es) + tail;
    assert all == [e.id, |e.name|] + (e.name + rest);
    FirstEntry(e.id, e.name, rest);
  }

  lemma FirstEntry(id: byte, name: bytes, rest: bytes)
    requires |name| < 256
    ensures var all := [id, |name|] + (name + rest);
            all[0] == id && all[1] == |name| && all[2..2 + |name|] == name && all[2 + |name|..] == rest
  {
  }

  lemma {:induction false} ParseWritten(es: seq<FileEntry>, tail: bytes, t: Table, id: nat)
    requires Shaped(t) && id < SLOTS && AllShort(es) && Unfinished(tail)
    ensures Visible(Parse(Written(es) + tail, t), id) == LastName(es, id, Visible(t, id))
    decreases |es|
  {
    if es == [] {
      Nothing(tail);
    } else {
      var e := es[0];
      WrittenFirst(es, tail, t);
      EntryShows(t, e, id);
      ParseWritten(es[1..], tail, Taken(t, e.id, e.name), id);
      LastNameFirst(e, es[1..], id, Visible(t, id));
      assert es == [e] + es[1..];
    }
  }

  // What any file shows: after the mark BIO1 and the version 1, the name of the last entry for
  // a slot, an unfinished entry at the end being left out; and with any other beginning nothing.
  lemma FileShows(es: seq<FileEntry>, tail: bytes, id: nat)
    requires id < SLOTS && AllShort(es) && Unfinished(tail)
    ensures Visible(Loaded([0x42, 0x49, 0x4F, 0x31, 1] + (Written(es) + tail)), id) == LastName(es, id, [])
  {
    var file := HEADER + (Written(es) + tail);
    Parts(HEADER, Written(es) + tail);
    assert file[..5] == HEADER && file[5..] == Written(es) + tail;
    ParseWritten(es, tail, Blank(), id);
  }

  lemma OtherFileShowsNothing(file: bytes, id: nat)
    requires id < SLOTS && !([0x42, 0x49, 0x4F, 0x31, 1] <= file)
    ensures Visible(Loaded(file), id) == []
  {
    if |file| >= 5 { assert file == file[..5] + file[5..]; }
  }
}
