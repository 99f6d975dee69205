/** The cache directory: writers, readers and evictors as interleaved file-system steps, and
    the size-bounded eviction pass. */
module CacheStore {
  import opened Wrappers
  import opened Json
  import opened Models
  import opened CacheKey
  import opened EvalCache
  import Sorting

  // ---- the directory as a step machine ----

  /** Canonical JSON text of an entry, and parsing it back. */
  datatype Codec = Codec(encode: Json -> string, decode: string -> Option<Json>)

  ghost predicate Faithful(codec: Codec) { forall j :: codec.decode(codec.encode(j)) == Some(j) }

  /** A `store` between creating its temporary file and replacing the final one: `written`
      characters of the entry are in the file so far. */
  datatype Writer = Writer(key: Preimage, created: string, d: Diagnostic, temp: nat, inode: nat, written: nat)

  /** A `lookup`: it holds the inode it opened, or has returned. `seen` records what the final
      name held when it was opened. */
  datatype Reader =
    | Reading(key: Preimage, inode: nat, got: string, seen: Option<string>)
    | Returned(key: Preimage, result: Option<string>, seen: Option<string>)

  /** Final names and temporary names point to inodes; inodes outlive their names. */
  datatype Dir = Dir(finals: map<Preimage, nat>, temps: map<nat, nat>, inodes: map<nat, string>,
                     writers: map<nat, Writer>, readers: map<nat, Reader>)

  datatype Step =
    | Begin(w: nat, key: Preimage, created: string, d: Diagnostic, temp: nat, inode: nat)
    | Write(w: nat, count: nat)
    | Replace(w: nat)
    | Abandon(w: nat, unlinked: bool)
    | Open(r: nat, key: Preimage)
    | Read(r: nat, count: nat)
    | EndOfFile(r: nat)
    | ReadFails(r: nat)
    | Unlink(key: Preimage)

  function Raw(codec: Codec, w: Writer): string { codec.encode(EntryFor(w.created, w.d)) }

  predicate IsVerdict(d: Diagnostic) { d.status == PASS || d.status == FAIL }

  /** What a final name holds. */
  function Content(s: Dir, key: Preimage): Option<string> {
    if key in s.finals && s.finals[key] in s.inodes then Some(s.inodes[s.finals[key]]) else None
  }

  function Min(a: nat, b: nat): nat { if a < b then a else b }

  /** Whether the step can happen; `mkstemp` gives an unused name on an unused inode. */
  predicate Enabled(codec: Codec, s: Dir, step: Step) {
    match step
    case Begin(w, _, _, d, temp, inode) => w !in s.writers && temp !in s.temps && inode !in s.inodes && IsVerdict(d)
    case Write(w, _) => w in s.writers
    case Replace(w) => w in s.writers && s.writers[w].written == |Raw(codec, s.writers[w])|
    case Abandon(w, _) => w in s.writers
    case Open(r, _) => r !in s.readers
    case Read(r, _) => r in s.readers && s.readers[r].Reading? && s.readers[r].inode in s.inodes
    case EndOfFile(r) =>
      r in s.readers && s.readers[r].Reading? && s.readers[r].inode in s.inodes
      && |s.readers[r].got| >= |s.inodes[s.readers[r].inode]|
    case ReadFails(r) => r in s.readers && s.readers[r].Reading?
    case Unlink(_) => true
  }

  function Do(codec: Codec, s: Dir, step: Step): Dir
    requires Enabled(codec, s, step)
  {
    match step
    case Begin(w, key, created, d, temp, inode) =>
      s.(temps := s.temps[temp := inode], inodes := s.inodes[inode := ""],
         writers := s.writers[w := Writer(key, created, d, temp, inode, 0)])
    case Write(w, count) =>
      var writer := s.writers[w];
      var upTo := Min(writer.written + count, |Raw(codec, writer)|);
      s.(inodes := s.inodes[writer.inode := Raw(codec, writer)[..upTo]],
         writers := s.writers[w := writer.(written := upTo)])
    case Replace(w) =>
      var writer := s.writers[w];
      s.(temps := s.temps - {writer.temp}, finals := s.finals[writer.key := writer.inode], writers := s.writers - {w})
    case Abandon(w, unlinked) =>
      s.(temps := if unlinked then s.temps - {s.writers[w].temp} else s.temps, writers := s.writers - {w})
    case Open(r, key) =>
      var seen := Content(s, key);
      var reader := if key in s.finals then Reading(key, s.finals[key], "", seen) else Returned(key, None, seen);
      s.(readers := s.readers[r := reader])
    case Read(r, count) =>
      var reader := s.readers[r];
      var text := s.inodes[reader.inode];
      var from := Min(|reader.got|, |text|);
      s.(readers := s.readers[r := reader.(got := reader.got + text[from..Min(from + count, |text|)])])
    case EndOfFile(r) =>
      var reader := s.readers[r];
      s.(readers := s.readers[r := Returned(reader.key, Some(reader.got), reader.seen)])
    case ReadFails(r) =>
      var reader := s.readers[r];
      s.(readers := s.readers[r := Returned(reader.key, None, reader.seen)])
    case Unlink(key) => s.(finals := s.finals - {key})
  }

  /** A step that cannot happen leaves the directory alone. */
  function Next(codec: Codec, s: Dir, step: Step): Dir {
    if Enabled(codec, s, step) then Do(codec, s, step) else s
  }

  /** Any interleaving of any number of writers, readers, evictors and crashes. */
  function Run(codec: Codec, s: Dir, steps: seq<Step>): Dir {
    if steps == [] then s else Next(codec, Run(codec, s, steps[..|steps| - 1]), steps[|steps| - 1])
  }

  /** No writer and no reader yet; the directory may hold anything, leftovers included. */
  predicate AtRest(s: Dir) {
    s.writers == map[] && s.readers == map[] && forall k :: k in s.finals ==> s.finals[k] in s.inodes
  }

  // ---- what every interleaving keeps ----

  predicate Owned(s: Dir, inode: nat) { exists w :: w in s.writers && s.writers[w].inode == inode }

  predicate WriterOk(codec: Codec, s: Dir, w: Writer) {
    && w.inode in s.inodes && IsVerdict(w.d)
    && w.written <= |Raw(codec, w)| && s.inodes[w.inode] == Raw(codec, w)[..w.written]
  }

  /** Each writer alone owns its file, which holds the written part of its entry. */
  ghost predicate WritersOk(codec: Codec, s: Dir) {
    && (forall w :: w in s.writers ==> WriterOk(codec, s, s.writers[w]))
    && (forall v, w :: v in s.writers && w in s.writers && v != w ==> s.writers[v].inode != s.writers[w].inode)
  }

  /** A file under a final name is no longer written. */
  ghost predicate FinalsOk(s: Dir) {
    forall k :: k in s.finals ==> s.finals[k] in s.inodes && !Owned(s, s.finals[k])
  }

  /** An open file is no longer written and still holds what was seen when it was opened. */
  ghost predicate ReaderOk(s: Dir, r: Reader) {
    match r
    case Reading(_, inode, got, seen) =>
      inode in s.inodes && !Owned(s, inode) && seen == Some(s.inodes[inode]) && got <= s.inodes[inode]
    case Returned(_, result, seen) => result.Some? ==> result == seen
  }

  ghost predicate Inv(codec: Codec, s: Dir) {
    WritersOk(codec, s) && FinalsOk(s) && forall r :: r in s.readers ==> ReaderOk(s, s.readers[r])
  }

  /** Steps of readers and evictors leave writers and files alone. */
  predicate OfWriter(step: Step) { step.Begin? || step.Write? || step.Replace? || step.Abandon? }

  lemma OtherSteps(codec: Codec, s: Dir, step: Step)
    requires !OfWriter(step)
    ensures Next(codec, s, step).writers == s.writers && Next(codec, s, step).inodes == s.inodes
  {
    hide Raw, Content;
  }

  lemma {:induction false} WritersStay(codec: Codec, s: Dir, step: Step)
    requires WritersOk(codec, s)
    ensures WritersOk(codec, Next(codec, s, step))
  {
    hide EntryFor, IsVerdict, Content;
    if !OfWriter(step) {
      OtherSteps(codec, s, step);
      hide Next;
    } else {
      WriterStepsStay(codec, s, step);
    }
  }

  lemma {:induction false} WriterStepsStay(codec: Codec, s: Dir, step: Step)
    requires WritersOk(codec, s) && OfWriter(step)
    ensures WritersOk(codec, Next(codec, s, step))
  {
    hide EntryFor, IsVerdict, Content;
  }

  /** A file nobody writes is never written again. */
  lemma {:induction false} Frozen(codec: Codec, s: Dir, step: Step, inode: nat)
    requires WritersOk(codec, s) && inode in s.inodes && !Owned(s, inode)
    ensures var t := Next(codec, s, step); inode in t.inodes && !Owned(t, inode) && t.inodes[inode] == s.inodes[inode]
  {
    hide EntryFor, IsVerdict, Content;
    var t := Next(codec, s, step);
    forall w | w in t.writers ensures t.writers[w].inode != inode {
      if w in s.writers { assert s.writers[w].inode != inode; }
    }
  }

  lemma {:induction false} FinalsStay(codec: Codec, s: Dir, step: Step)
    requires WritersOk(codec, s) && FinalsOk(s)
    ensures FinalsOk(Next(codec, s, step))
  {
    hide EntryFor, IsVerdict, Content, Raw;
    var t := Next(codec, s, step);
    forall k | k in t.finals ensures t.finals[k] in t.inodes && !Owned(t, t.finals[k]) {
      if k in s.finals && t.finals[k] == s.finals[k] {
        Frozen(codec, s, step, s.finals[k]);
      } else {
        assert step.Replace? && !Owned(t, t.finals[k]);
      }
    }
  }

  lemma ReadOn(got: string, text: string, count: nat)
    requires got <= text
    ensures got + text[|got|..Min(|got| + count, |text|)] <= text
  {}

  lemma {:induction false} ReadersStay(codec: Codec, s: Dir, step: Step, r: nat)
    requires Inv(codec, s) && r in Next(codec, s, step).readers
    ensures ReaderOk(Next(codec, s, step), Next(codec, s, step).readers[r])
  {
    hide EntryFor, IsVerdict, Raw, WritersOk, Owned;
    var t := Next(codec, s, step);
    if r in s.readers {
      var reader := s.readers[r];
      assert ReaderOk(s, reader);
      if reader.Reading? {
        Frozen(codec, s, step, reader.inode);
        if step.Read? && step.r == r { ReadOn(reader.got, s.inodes[reader.inode], step.count); }
        if step.EndOfFile? && step.r == r && Enabled(codec, s, step) { assert reader.got == s.inodes[reader.inode]; }
      }
    } else {
      assert step.Open?;
      if step.key in s.finals { Frozen(codec, s, step, s.finals[step.key]); }
    }
  }

  lemma {:induction false} RunKeepsInv(codec: Codec, s: Dir, steps: seq<Step>)
    requires Inv(codec, s)
    ensures Inv(codec, Run(codec, s, steps))
  {
    hide WritersOk, FinalsOk, ReaderOk, Next;
    if steps == [] {
    } else {
      var n := |steps| - 1;
      RunKeepsInv(codec, s, steps[..n]);
      var before := Run(codec, s, steps[..n]);
      WritersStay(codec, before, steps[n]);
      FinalsStay(codec, before, steps[n]);
      var after := Run(codec, s, steps);
      forall r | r in after.readers ensures ReaderOk(after, after.readers[r]) {
        ReadersStay(codec, before, steps[n], r);
      }
    }
  }

  // ---- the directory refines an atomic map ----

  /** The directory as the evaluation cache sees it; undecodable files are absent. */
  function Abstract(codec: Codec, s: Dir): Cache {
    map k | k in s.finals && Content(s, k).Some? && codec.decode(Content(s, k).value).Some?
      :: codec.decode(Content(s, k).value).value
  }

  /** What a step does to the final names. */
  datatype Effect = Nothing | Stores(writer: Writer) | Removes(key: Preimage)

  function EffectOf(codec: Codec, s: Dir, step: Step): Effect {
    match step
    case Replace(w) => if Enabled(codec, s, step) then Stores(s.writers[w]) else Nothing
    case Unlink(key) => Removes(key)
    case _ => Nothing
  }

  lemma ContentStep(codec: Codec, s: Dir, step: Step, k: Preimage)
    requires Inv(codec, s)
    ensures Content(Next(codec, s, step), k)
         == match EffectOf(codec, s, step)
            case Nothing => Content(s, k)
            case Stores(w) => if w.key == k then Some(Raw(codec, w)) else Content(s, k)
            case Removes(key) => if key == k then None else Content(s, k)
    ensures EffectOf(codec, s, step).Stores? ==> IsVerdict(EffectOf(codec, s, step).writer.d)
  {
    hide EntryFor, IsVerdict, Raw;
    if k in s.finals { Frozen(codec, s, step, s.finals[k]); }
    FinalsStay(codec, s, step);
    if step.Replace? && Enabled(codec, s, step) && s.writers[step.w].key == k {
      var writer := s.writers[step.w];
      assert Raw(codec, writer)[..writer.written] == Raw(codec, writer);
    }
  }

  /** Every step but two is invisible; `replace` is the atomic store of a complete entry and
      `unlink` the atomic removal of one. */
  lemma DirectoryRefinesMap(codec: Codec, s: Dir, step: Step)
    requires Faithful(codec) && Inv(codec, s)
    ensures Abstract(codec, Next(codec, s, step))
         == match EffectOf(codec, s, step)
            case Nothing => Abstract(codec, s)
            case Stores(w) => Store(Abstract(codec, s), w.key, w.created, w.d)
            case Removes(key) => Abstract(codec, s) - {key}
  {
    hide EntryFor, EffectOf, Next, Content, Inv, Abstract;
    var t := Next(codec, s, step);
    forall k
      ensures Held(codec, t, k)
           == match EffectOf(codec, s, step)
              case Nothing => Held(codec, s, k)
              case Stores(w) => if w.key == k then Some(EntryFor(w.created, w.d)) else Held(codec, s, k)
              case Removes(key) => if key == k then None else Held(codec, s, k)
    {
      ContentStep(codec, s, step, k);
    }
    AbstractIsHeld(codec, s);
    AbstractIsHeld(codec, t);
    if EffectOf(codec, s, step).Stores? { ContentStep(codec, s, step, EffectOf(codec, s, step).writer.key); }
  }

  /** The entry a final name decodes to. */
  function Held(codec: Codec, s: Dir, k: Preimage): Option<Json> {
    if Content(s, k).None? then None else codec.decode(Content(s, k).value)
  }

  lemma AbstractIsHeld(codec: Codec, s: Dir)
    ensures forall k :: k in Abstract(codec, s) <==> Held(codec, s, k).Some?
    ensures forall k :: k in Abstract(codec, s) ==> Abstract(codec, s)[k] == Held(codec, s, k).value
  {}

  // ---- what readers see ----

  /** A reader's text is what its final name held when it was opened, at one moment of the run,
      or it sees nothing: reads are atomic whatever is written, replaced, evicted or abandoned
      meanwhile. */
  lemma {:induction false} ReadsAreAtomic(codec: Codec, s: Dir, steps: seq<Step>, r: nat) returns (n: nat)
    requires Inv(codec, s) && s.readers == map[] && r in Run(codec, s, steps).readers
    ensures n <= |steps|
    ensures var reader := Run(codec, s, steps).readers[r]; reader.seen == Content(Run(codec, s, steps[..n]), reader.key)
    ensures var reader := Run(codec, s, steps).readers[r];
            reader.Returned? && reader.result.Some? ==> reader.result == Content(Run(codec, s, steps[..n]), reader.key)
  {
    RunKeepsInv(codec, s, steps);
    hide Inv, Content, Next;
    var m := |steps| - 1;
    var before := Run(codec, s, steps[..m]);
    SeenAtOpen(codec, before, steps[m], r);
    if r in before.readers {
      n := ReadsAreAtomic(codec, s, steps[..m], r);
      assert steps[..m][..n] == steps[..n];
    } else {
      n := m;
    }
    ReaderIsOk(codec, Run(codec, s, steps), r);
  }

  lemma SeenAtOpen(codec: Codec, s: Dir, step: Step, r: nat)
    requires r in Next(codec, s, step).readers
    ensures var reader := Next(codec, s, step).readers[r];
            if r in s.readers then reader.key == s.readers[r].key && reader.seen == s.readers[r].seen
            else reader.seen == Content(s, reader.key)
  {
    hide Content, Raw, IsVerdict;
  }

  lemma ReaderIsOk(codec: Codec, s: Dir, r: nat)
    requires Inv(codec, s) && r in s.readers
    ensures s.readers[r].Returned? && s.readers[r].result.Some? ==> s.readers[r].result == s.readers[r].seen
  {
    hide WritersOk, FinalsOk;
    assert ReaderOk(s, s.readers[r]);
  }

  /** A complete entry some `store` of a PASS or FAIL for this very key began to write. */
  ghost predicate Stored(codec: Codec, steps: seq<Step>, key: Preimage, text: string) {
    exists i :: 0 <= i < |steps| && steps[i].Begin? && steps[i].key == key && IsVerdict(steps[i].d)
                && text == codec.encode(EntryFor(steps[i].created, steps[i].d))
  }

  /** The writer's store began in one of the steps. */
  ghost predicate Began(steps: seq<Step>, w: Writer) {
    exists i :: 0 <= i < |steps| && BeganWith(steps[i], w)
  }

  predicate BeganWith(step: Step, w: Writer) {
    step.Begin? && step.key == w.key && step.created == w.created && step.d == w.d && IsVerdict(step.d)
  }

  lemma BeganIsStored(codec: Codec, steps: seq<Step>, w: Writer)
    requires Began(steps, w)
    ensures Stored(codec, steps, w.key, Raw(codec, w))
  {
    hide EntryFor;
  }

  lemma StoredGrows(codec: Codec, steps: seq<Step>, m: nat, key: Preimage, text: string)
    requires m <= |steps| && Stored(codec, steps[..m], key, text)
    ensures Stored(codec, steps, key, text)
  {
    var i :| 0 <= i < m && steps[..m][i].Begin? && steps[..m][i].key == key && IsVerdict(steps[..m][i].d)
             && text == codec.encode(EntryFor(steps[..m][i].created, steps[..m][i].d));
    assert steps[i] == steps[..m][i];
  }

  lemma {:induction false} WritersHaveOrigin(codec: Codec, s: Dir, steps: seq<Step>, w: nat)
    requires s.writers == map[] && w in Run(codec, s, steps).writers
    ensures Began(steps, Run(codec, s, steps).writers[w])
  {
    hide EntryFor, IsVerdict, Next;
    var m := |steps| - 1;
    var before := Run(codec, s, steps[..m]);
    WriterStep(codec, before, steps[m], w);
    if w in before.writers {
      WritersHaveOrigin(codec, s, steps[..m], w);
      var i :| 0 <= i < m && BeganWith(steps[..m][i], before.writers[w]);
      assert BeganWith(steps[i], Run(codec, s, steps).writers[w]);
    } else {
      assert BeganWith(steps[m], Run(codec, s, steps).writers[w]);
    }
  }

  lemma WriterStep(codec: Codec, s: Dir, step: Step, w: nat)
    requires w in Next(codec, s, step).writers
    ensures var now := Next(codec, s, step).writers[w];
            if w in s.writers
            then now.key == s.writers[w].key && now.created == s.writers[w].created && now.d == s.writers[w].d
            else BeganWith(step, now)
  {
    hide EntryFor, IsVerdict, Content;
  }

  /** A final name holds what it held at the start, or one complete entry stored for it. */
  lemma {:induction false} ContentOrigin(codec: Codec, s: Dir, steps: seq<Step>, key: Preimage)
    requires Inv(codec, s) && s.writers == map[]
    ensures var c := Content(Run(codec, s, steps), key);
            c.None? || c == Content(s, key) || Stored(codec, steps, key, c.value)
  {
    hide Inv, Content, Stored, Raw, Enabled, Next;
    if steps == [] {
    } else {
      var m := |steps| - 1;
      ContentOrigin(codec, s, steps[..m], key);
      var before := Run(codec, s, steps[..m]);
      var c := Content(before, key);
      if c.Some? && Stored(codec, steps[..m], key, c.value) { StoredGrows(codec, steps, m, key, c.value); }
      RunKeepsInv(codec, s, steps[..m]);
      ContentStep(codec, before, steps[m], key);
      if EffectOf(codec, before, steps[m]).Stores? {
        var w := steps[m].w;
        EnabledWriter(codec, before, steps[m]);
        WritersHaveOrigin(codec, s, steps[..m], w);
        BeganIsStored(codec, steps[..m], before.writers[w]);
        StoredGrows(codec, steps, m, before.writers[w].key, Raw(codec, before.writers[w]));
      }
    }
  }

  lemma EnabledWriter(codec: Codec, s: Dir, step: Step)
    ensures EffectOf(codec, s, step).Stores? ==>
              step.Replace? && step.w in s.writers && EffectOf(codec, s, step).writer == s.writers[step.w]
  {}

  /** For every interleaving from any directory at rest: a reader returns nothing, what was
      there at the start, or one complete PASS or FAIL entry stored for its key. */
  lemma ReaderSeesCompleteEntry(codec: Codec, s: Dir, steps: seq<Step>, r: nat)
    requires AtRest(s) && r in Run(codec, s, steps).readers && Run(codec, s, steps).readers[r].Returned?
    ensures var reader := Run(codec, s, steps).readers[r];
            || reader.result.None?
            || reader.result == Content(s, reader.key)
            || Stored(codec, steps, reader.key, reader.result.value)
  {
    assert Inv(codec, s);
    hide Inv, Content, Stored, Next, AtRest;
    var n := ReadsAreAtomic(codec, s, steps, r);
    var key := Run(codec, s, steps).readers[r].key;
    ContentOrigin(codec, s, steps[..n], key);
    var c := Content(Run(codec, s, steps[..n]), key);
    if c.Some? && Stored(codec, steps[..n], key, c.value) { StoredGrows(codec, steps, n, key, c.value); }
  }

  /** Undisturbed, a reader that comes after a writer gets what was written: create, write, replace,
      then open, read to the end. */
  lemma StoreThenRead(codec: Codec, s: Dir, w: nat, key: Preimage, created: string, d: Diagnostic, temp: nat,
                      inode: nat, r: nat)
    requires w !in s.writers && temp !in s.temps && inode !in s.inodes && r !in s.readers && IsVerdict(d)
    ensures var text := codec.encode(EntryFor(created, d));
            var written := Next(codec, Next(codec, s, Begin(w, key, created, d, temp, inode)), Write(w, |text|));
            var stored := Next(codec, written, Replace(w));
            var read := Next(codec, Next(codec, stored, Open(r, key)), Read(r, |text|));
            var done := Next(codec, read, EndOfFile(r));
            && Content(stored, key) == Some(text)
            && r in done.readers && done.readers[r].Returned? && done.readers[r].result == Some(text)
  {
    var text := codec.encode(EntryFor(created, d));
    hide EntryFor;
    var begun := Next(codec, s, Begin(w, key, created, d, temp, inode));
    var written := Next(codec, begun, Write(w, |text|));
    assert text[..|text|] == text;
    assert written.writers[w].written == |text| && written.inodes[inode] == text;
    var stored := Next(codec, written, Replace(w));
    assert key in stored.finals && stored.finals[key] == inode && stored.inodes[inode] == text;
    var reading := Next(codec, stored, Open(r, key));
    var read := Next(codec, reading, Read(r, |text|));
    assert "" + text[0..|text|] == text;
    assert read.readers[r].Reading? && read.readers[r].got == text;
  }

  // ---- eviction ----

  /** One entry file as the scan sees it. */
  datatype Entry = Entry(mtime: int, path: string, size: nat)

  /** Tuples compare by modification time, then path; paths are distinct. */
  function Older(): (Entry, Entry) -> bool {
    (a: Entry, b: Entry) => a.mtime < b.mtime || (a.mtime == b.mtime && Sorting.LexLe(a.path, b.path))
  }

  lemma OlderTotal()
    ensures Sorting.TotalPreorder(Older())
  {
    var le := Older();
    forall a, b ensures le(a, b) || le(b, a) { Sorting.LexTotal(a.path, b.path); }
    forall a, b, c | le(a, b) && le(b, c) ensures le(a, c) {
      if a.mtime == b.mtime == c.mtime { Sorting.LexTransitive(a.path, b.path, c.path); }
    }
  }

  function Total(entries: seq<Entry>): nat {
    if entries == [] then 0 else entries[0].size + Total(entries[1..])
  }

  lemma {:induction false} TotalSplit(entries: seq<Entry>, n: nat)
    requires n <= |entries|
    ensures Total(entries) == Total(entries[..n]) + Total(entries[n..])
  {
    if n == 0 {
      assert entries[0..] == entries;
    } else {
      TotalSplit(entries[1..], n - 1);
      assert entries[..n][1..] == entries[1..][..n - 1];
    }
  }

  lemma {:induction false} TotalConcat(a: seq<Entry>, b: seq<Entry>)
    ensures Total(a + b) == Total(a) + Total(b)
  {
    TotalSplit(a + b, |a|);
    assert (a + b)[..|a|] == a && (a + b)[|a|..] == b;
  }

  /** The entries whose removal fails. */
  function Stuck(entries: seq<Entry>, fails: set<string>): seq<Entry> {
    if entries == [] then []
    else (if entries[0].path in fails then [entries[0]] else []) + Stuck(entries[1..], fails)
  }

  lemma {:induction false} StuckSnoc(entries: seq<Entry>, e: Entry, fails: set<string>)
    ensures Stuck(entries + [e], fails) == Stuck(entries, fails) + if e.path in fails then [e] else []
  {
    if entries == [] {
      assert [e][1..] == [];
    } else {
      StuckSnoc(entries[1..], e, fails);
      assert (entries + [e])[1..] == entries[1..] + [e];
    }
  }

  /** What is left when the first n of the sorted entries have been tried. */
  function Left(sorted: seq<Entry>, fails: set<string>, n: nat): seq<Entry>
    requires n <= |sorted|
  {
    Stuck(sorted[..n], fails) + sorted[n..]
  }

  /** n is the number of entries tried: the least that brings the remaining bytes to the cap. */
  ghost predicate StopsAt(sorted: seq<Entry>, fails: set<string>, cap: int, n: nat) {
    && n <= |sorted|
    && (n == |sorted| || Total(Left(sorted, fails, n)) <= cap)
    && OverBefore(sorted, fails, cap, n)
  }

  /** Before the n-th removal attempt the cap is exceeded. */
  ghost predicate OverBefore(sorted: seq<Entry>, fails: set<string>, cap: int, n: nat)
    requires n <= |sorted|
  {
    forall m: nat :: m < n ==> Total(Left(sorted, fails, m)) > cap
  }

  lemma OverNext(sorted: seq<Entry>, fails: set<string>, cap: int, n: nat)
    requires n < |sorted| && OverBefore(sorted, fails, cap, n) && Total(Left(sorted, fails, n)) > cap
    ensures OverBefore(sorted, fails, cap, n + 1)
  {}

  lemma Stopped(sorted: seq<Entry>, fails: set<string>, cap: int, n: nat)
    requires n <= |sorted| && OverBefore(sorted, fails, cap, n)
    requires n == |sorted| || Total(Left(sorted, fails, n)) <= cap
    ensures StopsAt(sorted, fails, cap, n)
  {}

  lemma CutAt<T>(s: seq<T>, n: nat)
    requires n < |s|
    ensures s[..n + 1] == s[..n] + [s[n]] && s[n..] == [s[n]] + s[n + 1..]
  {}

  lemma LeftStep(sorted: seq<Entry>, fails: set<string>, n: nat)
    requires n < |sorted|
    ensures Total(Left(sorted, fails, n + 1))
         == Total(Left(sorted, fails, n)) - if sorted[n].path in fails then 0 else sorted[n].size
  {
    hide Stuck;
    var e := sorted[n];
    CutAt(sorted, n);
    StuckSnoc(sorted[..n], e, fails);
    TotalConcat(Stuck(sorted[..n], fails), sorted[n..]);
    TotalConcat(Stuck(sorted[..n + 1], fails), sorted[n + 1..]);
    TotalConcat(Stuck(sorted[..n], fails), [e]);
    TotalConcat([e], sorted[n + 1..]);
    assert [e][1..] == [];
    if e.path !in fails { assert Stuck(sorted[..n], fails) + [] == Stuck(sorted[..n], fails); }
  }

  predicate DistinctPaths(entries: seq<Entry>) {
    forall i, j :: 0 <= i < j < |entries| ==> entries[i].path != entries[j].path
  }

  lemma {:induction false} StuckElements(entries: seq<Entry>, fails: set<string>)
    ensures forall e :: e in Stuck(entries, fails) <==> e in entries && e.path in fails
  {
    if entries == [] {
    } else {
      StuckElements(entries[1..], fails);
      assert entries == [entries[0]] + entries[1..];
    }
  }

  function Kept(sorted: seq<Entry>, fails: set<string>, n: nat): set<Entry>
    requires n <= |sorted|
  {
    set e | e in Left(sorted, fails, n)
  }

  function Elements(entries: seq<Entry>): set<Entry> { set e | e in entries }

  lemma StartsFull(listing: seq<Entry>, cap: int, fails: set<string>)
    requires DistinctPaths(listing)
    ensures var sorted := Sorting.Sort(Older(), listing);
            && DistinctPaths(sorted) && Left(sorted, fails, 0) == sorted && Kept(sorted, fails, 0) == Elements(listing)
            && OverBefore(sorted, fails, cap, 0)
  {
    hide Sorting.Sort, Older, DistinctPaths;
    SortedListing(listing);
  }

  lemma LeftNext(sorted: seq<Entry>, fails: set<string>, n: nat)
    requires DistinctPaths(sorted) && n < |sorted|
    ensures Kept(sorted, fails, n + 1) == Kept(sorted, fails, n) - if sorted[n].path in fails then {} else {sorted[n]}
  {
    CutAt(sorted, n);
    StuckElements(sorted[..n], fails);
    StuckElements(sorted[..n + 1], fails);
    assert sorted[n] !in sorted[n + 1..];
  }

  // ---- what eviction promises of the files ----

  /** The files, oldest first, ties by path. */
  ghost predicate ByAge(files: seq<Entry>) {
    forall i, j :: 0 <= i < j < |files| ==>
      files[i].mtime < files[j].mtime
      || (files[i].mtime == files[j].mtime && Sorting.LexLe(files[i].path, files[j].path))
  }

  /** Every removed file is at most as recent as every kept one that could have been removed, ties
      decided by path. */
  ghost predicate OldestGo(removed: set<Entry>, kept: set<Entry>, fails: set<string>) {
    forall x, y :: x in removed && y in kept && y.path !in fails ==>
      x.mtime < y.mtime || (x.mtime == y.mtime && Sorting.LexLe(x.path, y.path))
  }

  ghost predicate Lists(listing: seq<Entry>, files: set<Entry>) {
    DistinctPaths(listing) && Elements(listing) == files
  }

  ghost predicate Fits(files: set<Entry>, cap: int) { exists s :: Lists(s, files) && Total(s) <= cap }

  ghost predicate Exceeds(files: set<Entry>, cap: int) { exists s :: Lists(s, files) && Total(s) > cap }

  /** What one pass does to the files it found: only removable ones go, oldest first; in the end they
      fit the cap or nothing more can be removed; and with any removed file, kept ones younger than
      it aside, they would not have fitted. */
  ghost predicate Evicted(before: set<Entry>, after: set<Entry>, cap: int, fails: set<string>) {
    && after <= before
    && (forall x :: x in before - after ==> x.path !in fails)
    && OldestGo(before - after, after, fails)
    && (Fits(after, cap) || forall x :: x in after ==> x.path in fails)
    && (before != after ==> exists x :: x in before - after && Exceeds(after + {x}, cap))
  }

  lemma LeftLists(sorted: seq<Entry>, fails: set<string>, n: nat)
    requires DistinctPaths(sorted) && n <= |sorted|
    ensures Lists(Left(sorted, fails, n), Kept(sorted, fails, n))
  {
    StuckDistinct(sorted[..n], fails);
    StuckElements(sorted[..n], fails);
    var stuck := Stuck(sorted[..n], fails);
    forall i, j | 0 <= i < j < |stuck + sorted[n..]|
      ensures (stuck + sorted[n..])[i].path != (stuck + sorted[n..])[j].path
    {
      if i < |stuck| <= j {
        assert stuck[i] in sorted[..n];
        var k :| 0 <= k < n && sorted[k] == stuck[i];
        assert sorted[k].path != sorted[n + (j - |stuck|)].path;
      }
    }
  }

  lemma {:induction false} StuckDistinct(entries: seq<Entry>, fails: set<string>)
    requires DistinctPaths(entries)
    ensures DistinctPaths(Stuck(entries, fails))
  {
    if entries == [] {
    } else {
      StuckDistinct(entries[1..], fails);
      StuckElements(entries[1..], fails);
      forall e | e in entries[1..] ensures e.path != entries[0].path {
        var k :| 0 <= k < |entries[1..]| && entries[1..][k] == e;
        assert entries[k + 1] == e;
      }
    }
  }

  /** Which files are kept when n have been tried: those that could not be removed and those not
      tried. */
  lemma KeptIff(sorted: seq<Entry>, fails: set<string>, n: nat, e: Entry)
    requires n <= |sorted|
    ensures e in Kept(sorted, fails, n) <==> (e in sorted[..n] && e.path in fails) || e in sorted[n..]
  {
    StuckElements(sorted[..n], fails);
  }

  /** The last file removed, if any was: with it the cap was still exceeded. */
  lemma {:induction false} LastRemoved(sorted: seq<Entry>, fails: set<string>, cap: int, n: nat)
    requires DistinctPaths(sorted) && n <= |sorted| && OverBefore(sorted, fails, cap, n)
    ensures Kept(sorted, fails, n) == Elements(sorted)
            || exists x :: x in Elements(sorted) - Kept(sorted, fails, n) && Exceeds(Kept(sorted, fails, n) + {x}, cap)
  {
    if n == 0 {
      StartsFullSorted(sorted, fails);
    } else {
      LeftNext(sorted, fails, n - 1);
      KeptIff(sorted, fails, n - 1, sorted[n - 1]);
      if sorted[n - 1].path in fails {
        LastRemoved(sorted, fails, cap, n - 1);
      } else {
        var x := sorted[n - 1];
        LeftLists(sorted, fails, n - 1);
        assert Kept(sorted, fails, n) + {x} == Kept(sorted, fails, n - 1);
        assert Exceeds(Kept(sorted, fails, n) + {x}, cap);
      }
    }
  }

  lemma StartsFullSorted(sorted: seq<Entry>, fails: set<string>)
    ensures Kept(sorted, fails, 0) == Elements(sorted)
  {
    assert Left(sorted, fails, 0) == sorted;
  }

  /** What a pass over the sorted listing leaves is what eviction promises. */
  lemma EvictionMeaning(sorted: seq<Entry>, fails: set<string>, cap: int, n: nat)
    requires DistinctPaths(sorted) && ByAge(sorted) && StopsAt(sorted, fails, cap, n)
    ensures Evicted(Elements(sorted), Kept(sorted, fails, n), cap, fails)
  {
    var before, after := Elements(sorted), Kept(sorted, fails, n);
    assert sorted == sorted[..n] + sorted[n..];
    forall e ensures e in after <==> (e in sorted[..n] && e.path in fails) || e in sorted[n..] {
      KeptIff(sorted, fails, n, e);
    }
    LastRemoved(sorted, fails, cap, n);
    LeftLists(sorted, fails, n);
    hide Kept, Exceeds, OverBefore, DistinctPaths, Stuck;
    EvictionIsThorough(sorted, fails, cap, n);
    if Total(Left(sorted, fails, n)) <= cap { assert Fits(after, cap); }
  }

  /** The cache directory as eviction changes it. */
  class Directory {
    var files: set<Entry>

    constructor (entries: set<Entry>)
      ensures files == entries
    {
      files := entries;
    }

    /** `_maybe_evict`: `listing` is the directory scan in any order, `fails` the paths that
        cannot be unlinked. */
    method MaybeEvict(listing: seq<Entry>, maxMb: int, fails: set<string>) returns (ghost tried: nat)
      requires DistinctPaths(listing) && files == Elements(listing)
      modifies this
      ensures Evicted(old(files), files, maxMb * 1024 * 1024, fails)
      ensures var sorted := Sorting.Sort(Older(), listing);
              && StopsAt(sorted, fails, maxMb * 1024 * 1024, tried)
              && files == Kept(sorted, fails, tried)
    {
      hide *;
      var maxBytes := maxMb * 1024 * 1024;
      var entries := Sorting.Sort(Older(), listing);
      StartsFull(listing, maxBytes, fails);
      var total := Sum(entries);
      var i := 0;
      while i < |entries| && total > maxBytes
        invariant i <= |entries|
        invariant total == Total(Left(entries, fails, i))
        invariant OverBefore(entries, fails, maxBytes, i)
        invariant files == Kept(entries, fails, i)
      {
        LeftStep(entries, fails, i);
        LeftNext(entries, fails, i);
        OverNext(entries, fails, maxBytes, i);
        if entries[i].path !in fails {
          files := files - {entries[i]};
          total := total - entries[i].size;
        }
        i := i + 1;
      }
      tried := i;
      Stopped(entries, fails, maxBytes, i);
      ListingByAge(listing);
      EvictionMeaning(entries, fails, maxBytes, i);
    }
  }

  method Sum(entries: seq<Entry>) returns (total: nat)
    ensures total == Total(entries)
  {
    total := 0;
    for i := 0 to |entries|
      invariant total == Total(entries[..i])
    {
      assert entries[..i + 1] == entries[..i] + [entries[i]];
      TotalConcat(entries[..i], [entries[i]]);
      total := total + entries[i].size;
    }
    assert entries[..|entries|] == entries;
  }

  lemma SortedListing(listing: seq<Entry>)
    requires DistinctPaths(listing)
    ensures var sorted := Sorting.Sort(Older(), listing);
            && DistinctPaths(sorted) && Sorting.Sorted(Older(), sorted) && multiset(sorted) == multiset(listing)
            && forall e :: e in sorted <==> e in listing
  {
    OlderTotal();
    Sorting.SortSorts(Older(), listing);
    var sorted := Sorting.Sort(Older(), listing);
    Sorting.SameElements(sorted, listing);
    PathsPermute(listing, sorted);
  }

  /** The sorted listing is the listing by age. */
  lemma ListingByAge(listing: seq<Entry>)
    requires DistinctPaths(listing)
    ensures var sorted := Sorting.Sort(Older(), listing);
            DistinctPaths(sorted) && ByAge(sorted) && Elements(sorted) == Elements(listing)
  {
    SortedListing(listing);
    hide Sorting.Sort, DistinctPaths, Sorting.LexLe;
  }

  lemma PathsPermute(a: seq<Entry>, b: seq<Entry>)
    requires DistinctPaths(a) && multiset(a) == multiset(b)
    ensures DistinctPaths(b)
  {
    forall i, j | 0 <= i < j < |b| ensures b[i].path != b[j].path {
      if b[i].path == b[j].path {
        assert b[i] in multiset(a) && b[j] in multiset(a);
        assert b[i] == b[j];
        assert b == b[..i] + [b[i]] + b[i + 1..j] + [b[j]] + b[j + 1..];
        assert multiset(b)[b[i]] >= 2;
        Once(a, b[i]);
      }
    }
  }

  lemma {:induction false} Once(a: seq<Entry>, e: Entry)
    requires DistinctPaths(a)
    ensures multiset(a)[e] <= 1
  {
    if a == [] {
    } else {
      assert a == [a[0]] + a[1..];
      Once(a[1..], e);
    }
  }

  /** Undisturbed eviction of the listing by age keeps exactly its longest newest-first suffix that fits
      the cap: everything kept is newer than everything removed. */
  lemma UndisturbedKeepsNewest(listing: seq<Entry>, sorted: seq<Entry>, cap: nat, n: nat)
    requires DistinctPaths(listing) && sorted == Sorting.Sort(Older(), listing) && StopsAt(sorted, {}, cap, n)
    ensures Elements(sorted) == Elements(listing)
    ensures Left(sorted, {}, n) == sorted[n..] && Total(sorted[n..]) <= cap
    ensures forall m: nat :: m < n ==> Total(sorted[m..]) > cap
    ensures forall x, y :: x in sorted[..n] && y in sorted[n..] ==>
              x.mtime < y.mtime || (x.mtime == y.mtime && Sorting.LexLe(x.path, y.path))
  {
    ListingByAge(listing);
    hide Sorting.Sort, Older, Sorting.LexLe, DistinctPaths, Elements;
    forall m: nat | m <= |sorted| ensures Left(sorted, {}, m) == sorted[m..] {
      NothingStuck(sorted[..m]);
    }
    TriedBefore(sorted, n);
  }

  lemma TriedBefore(sorted: seq<Entry>, n: nat)
    requires ByAge(sorted) && n <= |sorted|
    ensures forall x, y :: x in sorted[..n] && y in sorted[n..] ==>
              x.mtime < y.mtime || (x.mtime == y.mtime && Sorting.LexLe(x.path, y.path))
  {
    hide Sorting.LexLe;
  }

  lemma {:induction false} NothingStuck(entries: seq<Entry>)
    ensures Stuck(entries, {}) == []
  {
    if entries == [] {
    } else {
      NothingStuck(entries[1..]);
    }
  }

  /** Whatever fails to unlink, eviction never stops early: either the cap is met
      or only entries that could not be removed are left. */
  lemma EvictionIsThorough(sorted: seq<Entry>, fails: set<string>, cap: int, n: nat)
    requires StopsAt(sorted, fails, cap, n)
    ensures Total(Left(sorted, fails, n)) <= cap || forall e :: e in Left(sorted, fails, n) ==> e.path in fails
    ensures forall e :: e in sorted && e !in Left(sorted, fails, n) ==> e.path !in fails
  {
    StuckElements(sorted[..n], fails);
    assert sorted == sorted[..n] + sorted[n..];
  }

  /** The order of the directory scan does not matter. */
  lemma {:induction false} ScanOrderIrrelevant(a: seq<Entry>, b: seq<Entry>)
    requires DistinctPaths(a) && multiset(a) == multiset(b)
    requires ByAge(a) && ByAge(b)
    ensures a == b
  {
    Sorting.SameElements(a, b);
    if a == [] {
    } else {
      var n := |a| - 1;
      assert a[n] in b && b[n] in a;
      SameNewest(a[n], b[n], a, b);
      InitOf(a);
      InitOf(b);
      InitSorted(a);
      InitSorted(b);
      hide *;
      ScanOrderIrrelevant(a[..n], b[..n]);
    }
  }

  lemma InitOf<T>(a: seq<T>)
    requires a != []
    ensures a == a[..|a| - 1] + [a[|a| - 1]] && multiset(a[..|a| - 1]) == multiset(a) - multiset{a[|a| - 1]}
  {
    assert a == a[..|a| - 1] + [a[|a| - 1]];
  }

  lemma InitSorted(a: seq<Entry>)
    requires a != []
    ensures ByAge(a) ==> ByAge(a[..|a| - 1])
    ensures DistinctPaths(a) ==> DistinctPaths(a[..|a| - 1])
  {}

  lemma SameNewest(x: Entry, y: Entry, a: seq<Entry>, b: seq<Entry>)
    requires |a| == |b| > 0 && x == a[|a| - 1] && y == b[|b| - 1] && x in b && y in a && DistinctPaths(a)
    requires ByAge(a) && ByAge(b)
    ensures x == y
  {
    if x != y {
      assert y.mtime == x.mtime && Sorting.LexLe(y.path, x.path) && Sorting.LexLe(x.path, y.path);
      Sorting.LexAntisymmetric(x.path, y.path);
    }
  }
}
