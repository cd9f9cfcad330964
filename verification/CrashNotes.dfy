/** ELF notes of a crash dump: writing them, merging the notes of all CPUs into one segment, and
    reading the segment back (System V ABI, chapter 5, "Note Section"). */
module CrashNotes {
  import opened Bytes

  datatype Note = Note(name: seq<u8>, ntype: nat, desc: seq<u8>)
  datatype Head = Whole(note: Note) | NoNote
  datatype Reading = Reading(notes: seq<Note>, ended: bool)

  /** "CORE", "VMCOREINFO" and the type of a register note. */
  const CORE: seq<u8> := [67, 79, 82, 69]
  const VMCOREINFO: seq<u8> := [86, 77, 67, 79, 82, 69, 73, 78, 70, 79]
  const NT_PRSTATUS: nat := 1
  const HEADER: nat := 12

  function Align(n: nat): (r: nat)
    ensures n <= r < n + 4 && r % 4 == 0
  {
    (n + 3) / 4 * 4
  }

  /** A note that can be written: the name is a C string and the sizes are 32-bit numbers. */
  predicate Writable(n: Note) {
    0 !in n.name && |n.name| + 1 < TWO32 && n.ntype < TWO32 && |n.desc| < TWO32
  }

  function NoteSize(n: Note): nat {
    HEADER + Align(|n.name| + 1) + Align(|n.desc|)
  }

  // ---- The format ----

  /** The note as bytes: three words, the terminated name and the descriptor, each filled up to a whole
      word with bytes `p` and `q` of any value. */
  function Encode(n: Note, p: seq<u8>, q: seq<u8>): seq<u8>
    requires Writable(n)
  {
    Word(|n.name| + 1) + Word(|n.desc|) + Word(n.ntype) + (n.name + [0] + p) + (n.desc + q)
  }

  ghost predicate HoldsWith(b: seq<u8>, n: Note, p: seq<u8>, q: seq<u8>) {
    && Writable(n)
    && |n.name| + 1 + |p| == Align(|n.name| + 1) && |n.desc| + |q| == Align(|n.desc|)
    && b == Encode(n, p, q)
  }

  ghost predicate Holds(b: seq<u8>, n: Note) {
    |b| == NoteSize(n) && exists p, q :: HoldsWith(b, n, p, q)
  }

  /** How many bytes the first `k` notes take. */
  function Total(ns: seq<Note>, k: nat): nat
    requires k <= |ns|
  {
    if k == 0 then 0 else Total(ns, k - 1) + NoteSize(ns[k - 1])
  }

  /** `b` starts with the empty header that ends a list. */
  predicate Ends(b: seq<u8>) {
    |b| >= 12 && forall k :: 0 <= k < 12 ==> b[k] == 0
  }

  /** The note at the start of `b`, if there is a whole one with a name. */
  function First(b: seq<u8>): (r: Head)
    ensures r.Whole? ==> NoteSize(r.note) <= |b|
  {
    if |b| < HEADER then NoNote
    else
      var namesz, descsz, ntype := WordValue(b[0..4]), WordValue(b[4..8]), WordValue(b[8..12]);
      var d := HEADER + Align(namesz);
      if namesz == 0 || d + Align(descsz) > |b| then NoNote
      else Whole(Note(b[HEADER..HEADER + namesz - 1], ntype, b[d..d + descsz]))
  }

  /** Reading a segment: the notes in it, and whether an empty header ends them. */
  function Parse(b: seq<u8>): Reading
    decreases |b|
  {
    match First(b)
    case Whole(n) =>
      var rest := Parse(b[NoteSize(n)..]);
      Reading([n] + rest.notes, rest.ended)
    case NoNote => Reading([], Ends(b))
  }

  lemma Pieces(u: seq<u8>, v: seq<u8>, w: seq<u8>, name: seq<u8>, p: seq<u8>, desc: seq<u8>, q: seq<u8>,
               rest: seq<u8>, c: seq<u8>)
    requires |u| == |v| == |w| == 4
    requires c == u + v + w + (name + [0] + p) + (desc + q) + rest
    ensures c[0..4] == u && c[4..8] == v && c[8..12] == w
    ensures c[12..12 + |name|] == name
    ensures var d := 13 + |name| + |p|; c[d..d + |desc|] == desc
  {}

  lemma FirstHeld(b: seq<u8>, n: Note, rest: seq<u8>)
    requires Holds(b, n)
    ensures First(b + rest) == Whole(n)
  {
    var p, q :| HoldsWith(b, n, p, q);
    WordRoundTrip(|n.name| + 1);
    WordRoundTrip(|n.desc|);
    WordRoundTrip(n.ntype);
    Pieces(Word(|n.name| + 1), Word(|n.desc|), Word(n.ntype), n.name, p, n.desc, q, rest, b + rest);
  }

  lemma ParseOne(d: seq<u8>, n: Note, rest: seq<u8>)
    requires Holds(d, n)
    ensures Parse(d + rest) == Reading([n] + Parse(rest).notes, Parse(rest).ended)
  {
    FirstHeld(d, n, rest);
    assert (d + rest)[|d|..] == rest;
  }

  lemma AddToNothing<T>(a: seq<T>)
    ensures [] + a == a
  {}

  lemma AddNothing<T>(a: seq<T>)
    ensures a + [] == a
  {}

  lemma {:induction false} TotalGrows(ns: seq<Note>, k: nat, j: nat)
    requires k <= j <= |ns|
    ensures Total(ns, k) <= Total(ns, j)
    decreases j
  {
    if k < j {
      TotalGrows(ns, k, j - 1);
    }
  }

  /** `b` reads as the first `k` notes, whatever comes after it. */
  ghost predicate ReadsAs(b: seq<u8>, ns: seq<Note>, k: nat) {
    && k <= |ns| && |b| == Total(ns, k)
    && forall rest :: Parse(b + rest) == Reading(ns[..k] + Parse(rest).notes, Parse(rest).ended)
  }

  lemma ReadsNothing(ns: seq<Note>)
    ensures ReadsAs([], ns, 0)
  {
    forall rest: seq<u8>
      ensures Parse([] + rest) == Reading(ns[..0] + Parse(rest).notes, Parse(rest).ended)
    {
      AddToNothing(rest);
      AddToNothing(Parse(rest).notes);
      assert ns[..0] == [];
    }
  }

  lemma ParseLast(c: seq<u8>, front: seq<Note>, d: seq<u8>, n: Note, rest: seq<u8>)
    requires Parse(c + (d + rest)) == Reading(front + Parse(d + rest).notes, Parse(d + rest).ended)
    requires Holds(d, n)
    ensures Parse(c + d + rest) == Reading(front + [n] + Parse(rest).notes, Parse(rest).ended)
  {
    ParseOne(d, n, rest);
    Associative(c, d, rest);
    Associative(front, [n], Parse(rest).notes);
  }

  /** A note written behind others is read behind them. */
  lemma Extend(b: seq<u8>, ns: seq<Note>, c: seq<u8>, k: nat)
    requires ReadsAs(b, ns, k) && k < |ns| && Holds(c, ns[k])
    ensures ReadsAs(b + c, ns, k + 1)
  {
    assert ns[..k + 1] == ns[..k] + [ns[k]];
    forall rest
      ensures Parse(b + c + rest) == Reading(ns[..k + 1] + Parse(rest).notes, Parse(rest).ended)
    {
      ParseLast(b, ns[..k], c, ns[k], rest);
    }
  }

  // ---- Writing ----

  method Store(buf: array<u8>, at: nat, data: seq<u8>)
    requires at + |data| <= buf.Length
    modifies buf
    ensures buf[at..at + |data|] == data
    ensures forall k :: 0 <= k < at || at + |data| <= k < buf.Length ==> buf[k] == old(buf[k])
  {
    for i := 0 to |data|
      invariant forall k :: 0 <= k < buf.Length ==>
        buf[k] == if at <= k < at + i then data[k - at] else old(buf[k])
    {
      buf[at + i] := data[i];
    }
  }

  /** The pieces of a note, put in their places. */
  lemma PiecesHold(b: seq<u8>, n: Note, d: nat)
    requires Writable(n) && |b| == NoteSize(n) && d == HEADER + Align(|n.name| + 1)
    requires b[..HEADER] == Word(|n.name| + 1) + Word(|n.desc|) + Word(n.ntype)
    requires b[HEADER..HEADER + |n.name| + 1] == n.name + [0]
    requires b[d..d + |n.desc|] == n.desc
    ensures Holds(b, n)
  {
    var x := HEADER + |n.name| + 1;
    var p, q := b[x..d], b[d + |n.desc|..];
    FivePieces(b, HEADER, x, d, d + |n.desc|);
    assert HoldsWith(b, n, p, q);
  }

  lemma FivePieces<T>(b: seq<T>, i: nat, j: nat, k: nat, l: nat)
    requires i <= j <= k <= l <= |b|
    ensures b == b[..i] + (b[i..j] + b[j..k]) + (b[k..l] + b[l..])
  {}

  lemma SameSlice(m: seq<u8>, m': seq<u8>, lo: nat, hi: nat)
    requires lo <= hi <= |m| == |m'| && forall k :: lo <= k < hi ==> m'[k] == m[k]
    ensures m'[lo..hi] == m[lo..hi]
  {}

  lemma SliceOfSlice(m: seq<u8>, lo: nat, hi: nat, i: nat, j: nat)
    requires lo <= i <= j <= hi <= |m|
    ensures m[lo..hi][i - lo..j - lo] == m[i..j]
  {
    var x, y := m[lo..hi][i - lo..j - lo], m[i..j];
    assert |x| == |y|;
    assert forall k :: 0 <= k < |x| ==> x[k] == m[lo + (i - lo + k)] && y[k] == m[i + k];
  }

  lemma JoinSlices<T>(m: seq<T>, lo: nat, mid: nat, hi: nat)
    requires lo <= mid <= hi <= |m|
    ensures m[lo..hi] == m[lo..mid] + m[mid..hi]
  {}

  lemma NoteIn(m: seq<u8>, at: nat, x: nat, d: nat, next: nat, n: Note)
    requires Writable(n) && next == at + NoteSize(n) <= |m|
    requires x == at + HEADER && d == x + Align(|n.name| + 1)
    requires m[at..x] == Word(|n.name| + 1) + Word(|n.desc|) + Word(n.ntype)
    requires m[x..x + |n.name| + 1] == n.name + [0]
    requires m[d..d + |n.desc|] == n.desc
    ensures Holds(m[at..next], n)
  {
    SliceOfSlice(m, at, next, at, x);
    SliceOfSlice(m, at, next, x, x + |n.name| + 1);
    SliceOfSlice(m, at, next, d, d + |n.desc|);
    PiecesHold(m[at..next], n, d - at);
  }

  /** Copies the pieces of a note to their places. */
  method StorePieces(buf: array<u8>, at: nat, head: seq<u8>, x: nat, name: seq<u8>, d: nat, data: seq<u8>)
    requires at + |head| == x && x + |name| <= d && d + |data| <= buf.Length
    modifies buf
    ensures buf[at..x] == head && buf[x..x + |name|] == name && buf[d..d + |data|] == data
    ensures forall k :: 0 <= k < at || d + |data| <= k < buf.Length ==> buf[k] == old(buf[k])
  {
    Store(buf, at, head);
    ghost var m := buf[..];
    Store(buf, x, name);
    ghost var m' := buf[..];
    Store(buf, d, data);
    SameSlice(m, m', at, x);
    SameSlice(m', buf[..], at, x);
    SameSlice(m', buf[..], x, x + |name|);
  }

  /** Writes one note; returns where the next one goes. */
  method AppendElfNote(buf: array<u8>, at: nat, name: seq<u8>, ntype: nat, data: seq<u8>) returns (next: nat)
    requires Writable(Note(name, ntype, data))
    requires at + NoteSize(Note(name, ntype, data)) <= buf.Length
    modifies buf
    ensures next == at + NoteSize(Note(name, ntype, data))
    ensures Holds(buf[at..next], Note(name, ntype, data))
    ensures forall k :: 0 <= k < at || next <= k < buf.Length ==> buf[k] == old(buf[k])
  {
    var head := Word(|name| + 1) + Word(|data|) + Word(ntype);
    var x, d := at + HEADER, at + HEADER + Align(|name| + 1);
    StorePieces(buf, at, head, x, name + [0], d, data);
    next := d + Align(|data|);
    NoteIn(buf[..], at, x, d, next, Note(name, ntype, data));
  }

  /** Clears a header. */
  method FinalNote(buf: array<u8>, at: nat)
    requires at + HEADER <= buf.Length
    modifies buf
    ensures Ends(buf[at..])
    ensures forall k :: 0 <= k < at || at + HEADER <= k < buf.Length ==> buf[k] == old(buf[k])
  {
    for i := 0 to HEADER
      invariant forall k :: 0 <= k < buf.Length ==>
        buf[k] == if at <= k < at + i then 0 else old(buf[k])
    {
      buf[at + i] := 0;
    }
  }

  lemma ParseFinal(b: seq<u8>)
    requires Ends(b)
    ensures Parse(b) == Reading([], true)
  {}

  lemma OneNote(m: seq<u8>, n: Note)
    requires Saved(m, n) && Ends(m[NoteSize(n)..])
    ensures Parse(m) == Reading([n], true)
  {
    var b, rest := m[..NoteSize(n)], m[NoteSize(n)..];
    assert m == b + rest;
    ParseOne(b, n, rest);
    ParseFinal(rest);
  }

  /** One CPU saves its registers: its note and the end of the list, so that a reader finds exactly it. */
  method SaveCpu(notes: seq<array<u8>>, cpu: int, prstatus: seq<u8>)
    requires |prstatus| < TWO32
    requires forall k :: 0 <= k < |notes| ==>
      notes[k].Length >= NoteSize(Note(CORE, NT_PRSTATUS, prstatus)) + HEADER
    modifies if 0 <= cpu < |notes| then {notes[cpu]} else {}
    ensures 0 <= cpu < |notes| ==>
      && Saved(notes[cpu][..], Note([67, 79, 82, 69], 1, prstatus))
      && Parse(notes[cpu][..]) == Reading([Note([67, 79, 82, 69], 1, prstatus)], true)
  {
    if cpu < 0 || cpu >= |notes| { return; }
    var buf := notes[cpu];
    ghost var n := Note(CORE, NT_PRSTATUS, prstatus);
    var at := AppendElfNote(buf, 0, CORE, NT_PRSTATUS, prstatus);
    ghost var b := buf[0..at];
    FinalNote(buf, at);
    assert buf[..at] == b;
    OneNote(buf[..], n);
  }

  // ---- Merging the notes of all CPUs ----

  /** The characters of a C string. */
  function CString(b: seq<u8>): seq<u8> {
    if b == [] || b[0] == 0 then [] else [b[0]] + CString(b[1..])
  }

  lemma {:induction false} CStringEnds(name: seq<u8>, rest: seq<u8>, b: seq<u8>)
    requires 0 !in name && b == name + [0] + rest
    ensures CString(b) == name
  {
    if name == [] {
    } else {
      assert b[1..] == name[1..] + [0] + rest;
      CStringEnds(name[1..], rest, b[1..]);
    }
  }

  lemma NamePiece(head: seq<u8>, name: seq<u8>, p: seq<u8>, y: seq<u8>, rest: seq<u8>, b: seq<u8>)
    requires 0 !in name && |head| == HEADER
    requires b == head + (name + [0] + p) + y + rest
    ensures CString(b[HEADER..]) == name
  {
    assert b[HEADER..] == name + [0] + (p + y + rest);
    CStringEnds(name, p + y + rest, b[HEADER..]);
  }

  /** A buffer that starts with a note. */
  ghost predicate Saved(b: seq<u8>, n: Note) {
    |b| >= NoteSize(n) && Holds(b[..NoteSize(n)], n)
  }

  /** Reading a saved note back field by field. */
  lemma SavedFields(b: seq<u8>, n: Note)
    requires Saved(b, n)
    ensures Writable(n) && |b| >= NoteSize(n)
    ensures WordValue(b[0..4]) == |n.name| + 1 && WordValue(b[4..8]) == |n.desc|
    ensures WordValue(b[8..12]) == n.ntype && CString(b[HEADER..]) == n.name
    ensures var d := HEADER + Align(|n.name| + 1); b[d..d + |n.desc|] == n.desc
  {
    var c, rest := b[..NoteSize(n)], b[NoteSize(n)..];
    assert b == c + rest;
    var p, q :| HoldsWith(c, n, p, q);
    WordRoundTrip(|n.name| + 1);
    WordRoundTrip(|n.desc|);
    WordRoundTrip(n.ntype);
    Pieces(Word(|n.name| + 1), Word(|n.desc|), Word(n.ntype), n.name, p, n.desc, q, rest, b);
    NamePiece(Word(|n.name| + 1) + Word(|n.desc|) + Word(n.ntype), n.name, p, n.desc + q, rest, b);
  }

  lemma TerminatorAt(b: seq<u8>, n: Note)
    requires Saved(b, n)
    ensures |b| > HEADER + |n.name| && b[HEADER..HEADER + |n.name|] == n.name && b[HEADER + |n.name|] == 0
  {
    var c := b[..NoteSize(n)];
    var p, q :| HoldsWith(c, n, p, q);
    var head := Word(|n.name| + 1) + Word(|n.desc|) + Word(n.ntype);
    assert c == head + (n.name + ([0] + p + (n.desc + q)));
    assert c[HEADER..] == n.name + ([0] + p + (n.desc + q));
    assert b[HEADER..HEADER + |n.name|] == c[HEADER..][..|n.name|] && b[HEADER + |n.name|] == c[HEADER..][|n.name|];
  }

  /** The bytes of a note: two sizes, that of the name with its terminator, and the type, as little-endian
      words; then the name, terminated, and the data, each filled up to whole words. */
  lemma NoteLayout(b: seq<u8>, n: Note, d: nat)
    requires Saved(b, n) && d == 12 + (|n.name| + 4) / 4 * 4
    ensures NoteSize(n) == d + (|n.desc| + 3) / 4 * 4 <= |b|
    ensures b[0] as int + 0x100 * (b[1] as int) + 0x1_0000 * (b[2] as int) + 0x100_0000 * (b[3] as int) == |n.name| + 1
    ensures b[4] as int + 0x100 * (b[5] as int) + 0x1_0000 * (b[6] as int) + 0x100_0000 * (b[7] as int) == |n.desc|
    ensures b[8] as int + 0x100 * (b[9] as int) + 0x1_0000 * (b[10] as int) + 0x100_0000 * (b[11] as int) == n.ntype
    ensures b[12..12 + |n.name|] == n.name && b[12 + |n.name|] == 0 && b[d..d + |n.desc|] == n.desc
  {
    SavedFields(b, n);
    TerminatorAt(b, n);
  }

  /** How many of the notes from the `k`-th on are written, given that all before it are. */
  function FitFrom(ns: seq<Note>, room: nat, k: nat): nat
    requires k <= |ns|
    decreases |ns| - k
  {
    if k < |ns| && Total(ns, k + 1) <= room then FitFrom(ns, room, k + 1) else k
  }

  /** The writer stops at the largest number of notes that fit. */
  lemma {:induction false} FitIsLargest(ns: seq<Note>, room: nat, k: nat, fit: nat)
    requires k <= |ns| && Total(ns, k) <= room && fit == FitFrom(ns, room, k)
    ensures k <= fit <= |ns| && Total(ns, fit) <= room
    ensures forall j :: fit < j <= |ns| ==> Total(ns, j) > room
    decreases |ns| - k
  {
    if k < |ns| && Total(ns, k + 1) <= room {
      FitIsLargest(ns, room, k + 1, fit);
    } else {
      forall j | k < j <= |ns|
        ensures Total(ns, j) > room
      {
        TotalGrows(ns, k + 1, j);
      }
    }
  }

  /** Whether the end of the list is written behind `fit` notes. */
  predicate EndFits(ns: seq<Note>, room: nat, fit: nat)
    requires fit <= |ns|
  {
    fit == |ns| && Total(ns, fit) + HEADER <= room
  }

  /** Everything is written exactly when there is room for all notes and the end of the list. */
  lemma CompleteExactly(ns: seq<Note>, room: nat, fit: nat)
    requires fit == FitFrom(ns, room, 0)
    ensures fit <= |ns|
    ensures EndFits(ns, room, fit) <==> Total(ns, |ns|) + HEADER <= room
  {
    FitIsLargest(ns, room, 0, fit);
  }

  /** What a merged segment is: the notes that fit, then the end of the list if it was reached and fits
      too; a reader finds exactly that. */
  ghost predicate Merged(segment: seq<u8>, ns: seq<Note>, room: nat, fit: nat) {
    && fit <= |ns|
    && |segment| == Total(ns, fit) + (if EndFits(ns, room, fit) then HEADER else 0)
    && |segment| <= room
    && Parse(segment) == Reading(ns[..fit], EndFits(ns, room, fit))
  }

  lemma StopHere(b: seq<u8>, ns: seq<Note>, room: nat, k: nat)
    requires ReadsAs(b, ns, k) && |b| <= room
    requires |b| + (if k < |ns| then NoteSize(ns[k]) else HEADER) > room
    ensures FitFrom(ns, room, k) == k && Merged(b, ns, room, k)
  {
    AddNothing(b);
    assert Parse(b + []) == Reading(ns[..k] + [], false);
  }

  lemma EndHere(b: seq<u8>, ns: seq<Note>, k: nat, room: nat, last: seq<u8>)
    requires k == |ns| && ReadsAs(b, ns, k) && |b| + HEADER <= room && Ends(last) && |last| == HEADER
    ensures Merged(b + last, ns, room, k)
  {
    ParseFinal(last);
    AddNothing(ns[..k]);
  }

  lemma FitNext(ns: seq<Note>, room: nat, k: nat)
    requires k < |ns| && Total(ns, k) + NoteSize(ns[k]) <= room
    ensures FitFrom(ns, room, k) == FitFrom(ns, room, k + 1)
    ensures k + 1 == |ns| ==> FitFrom(ns, room, k) == k + 1
  {}

  /** Writes the next note of a segment that starts at `start`. */
  method AppendNext(buf: array<u8>, start: nat, at: nat, name: seq<u8>, ntype: nat, data: seq<u8>,
                    ghost ns: seq<Note>, ghost k: nat)
      returns (next: nat)
    requires k < |ns| && ns[k] == Note(name, ntype, data) && Writable(ns[k])
    requires start <= at && at + NoteSize(ns[k]) <= buf.Length
    requires ReadsAs(buf[start..at], ns, k)
    modifies buf
    ensures next == at + NoteSize(ns[k])
    ensures ReadsAs(buf[start..next], ns, k + 1)
    ensures forall j :: 0 <= j < start || next <= j < buf.Length ==> buf[j] == old(buf[j])
  {
    ghost var m := buf[..];
    next := AppendElfNote(buf, at, name, ntype, data);
    ghost var m' := buf[..];
    SameSlice(m, m', start, at);
    JoinSlices(m', start, at, next);
    Extend(m[start..at], ns, m'[at..next], k);
  }

  /** Leaving the terminator of a name out of the count changes nothing, exactly when the characters alone
      do not fill whole words. */
  lemma TerminatorInPadding(length: nat)
    ensures Align(length) == Align(length + 1) <==> length % 4 != 0
  {}

  /** The next note, read back from the buffer of a CPU, if it still fits. */
  method AppendSaved(buf: array<u8>, start: nat, at: nat, left: nat, note: seq<u8>, ghost ns: seq<Note>, ghost k: nat)
      returns (size: nat, next: nat)
    requires k < |ns| && Saved(note, ns[k])
    requires start <= at && at + left <= buf.Length
    requires ReadsAs(buf[start..at], ns, k)
    modifies buf
    ensures size == NoteSize(ns[k])
    ensures size > left ==> next == at && buf[..] == old(buf[..])
    ensures size <= left ==> next == at + size && ReadsAs(buf[start..next], ns, k + 1)
    ensures forall j :: 0 <= j < start || next <= j < buf.Length ==> buf[j] == old(buf[j])
  {
    SavedFields(note, ns[k]);
    var namesz, descsz := WordValue(note[0..4]), WordValue(note[4..8]);
    size, next := HEADER + Align(namesz) + Align(descsz), at;
    if size <= left {
      var d := HEADER + Align(namesz);
      next := AppendNext(buf, start, at, CString(note[HEADER..]), WordValue(note[8..12]), note[d..d + descsz], ns, k);
    }
  }

  /** The end of the list, if it still fits. */
  method CloseSegment(buf: array<u8>, start: nat, at: nat, left: nat, ghost ns: seq<Note>, ghost k: nat,
                      ghost room: nat)
      returns (counted: nat, ghost next: nat)
    requires start <= at && at + left == start + room <= buf.Length
    requires k == |ns| && ReadsAs(buf[start..at], ns, k)
    modifies buf
    ensures next == at + counted <= buf.Length && Merged(buf[start..next], ns, room, k)
    ensures forall j :: 0 <= j < at || next <= j < buf.Length ==> buf[j] == old(buf[j])
  {
    ghost var b := buf[start..at];
    if HEADER > left {
      counted, next := 0, at;
      StopHere(b, ns, room, k);
    } else {
      ghost var m := buf[..];
      FinalNote(buf, at);
      counted, next := HEADER, at + HEADER;
      SameSlice(m, buf[..], start, at);
      JoinSlices(buf[..], start, at, next);
      EndHere(b, ns, k, room, buf[at..next]);
    }
  }

  /** The last note, of the kernel's own data. The size that is counted leaves out the terminator of the
      name, which is right when padding follows the name anyway. */
  method AppendInfo(buf: array<u8>, start: nat, at: nat, left: nat, name: seq<u8>, info: seq<u8>,
                    ghost ns: seq<Note>, ghost k: nat, ghost room: nat)
      returns (counted: nat, ghost next: nat, ghost fit: nat)
    requires k + 1 == |ns| && ns[k] == Note(name, 0, info) && Writable(ns[k]) && |name| % 4 != 0
    requires start <= at && at + left == start + room <= buf.Length
    requires ReadsAs(buf[start..at], ns, k)
    modifies buf
    ensures next == at + counted <= buf.Length && Merged(buf[start..next], ns, room, fit)
    ensures fit == FitFrom(ns, room, k)
    ensures forall j :: 0 <= j < start || next <= j < buf.Length ==> buf[j] == old(buf[j])
  {
    TerminatorInPadding(|name|);
    var size := HEADER + Align(|name|) + Align(|info|);
    if size > left {
      counted, next, fit := 0, at, k;
      StopHere(buf[start..at], ns, room, k);
    } else {
      FitNext(ns, room, k);
      var behind := AppendNext(buf, start, at, name, 0, info, ns, k);
      fit := k + 1;
      counted, next := CloseSegment(buf, start, behind, left - size, ns, fit, room);
      counted := size + counted;
    }
  }

  /** All of the first `k` notes have been written, and there was room for them. */
  ghost predicate Filled(b: seq<u8>, ns: seq<Note>, room: nat, k: nat) {
    ReadsAs(b, ns, k) && |b| <= room && FitFrom(ns, room, 0) == FitFrom(ns, room, k)
  }

  lemma FilledNext(b: seq<u8>, ns: seq<Note>, room: nat, k: nat, b': seq<u8>)
    requires Filled(b, ns, room, k) && k < |ns| && |b'| <= room && ReadsAs(b', ns, k + 1)
    ensures Filled(b', ns, room, k + 1)
  {
    FitNext(ns, room, k);
  }

  /** The notes of the CPUs, up to the first that does not fit. */
  method AppendCpus(cpus: seq<seq<u8>>, buf: array<u8>, start: nat, room: nat, ghost all: seq<Note>)
      returns (at: nat, filesz: nat, left: nat, k: nat)
    requires |all| > |cpus| && forall i :: 0 <= i < |cpus| ==> Saved(cpus[i], all[i])
    requires start + room <= buf.Length
    modifies buf
    ensures at == start + filesz && filesz + left == room && k <= |cpus|
    ensures Filled(buf[start..at], all, room, k)
    ensures k < |cpus| ==> NoteSize(all[k]) > left
    ensures forall j :: 0 <= j < start || at <= j < buf.Length ==> buf[j] == old(buf[j])
  {
    at, filesz, left, k := start, 0, room, 0;
    ReadsNothing(all);
    assert buf[start..at] == [];
    while k < |cpus|
      invariant k <= |cpus| && at == start + filesz && filesz + left == room
      invariant Filled(buf[start..at], all, room, k)
      invariant forall j :: 0 <= j < start || at <= j < buf.Length ==> buf[j] == old(buf[j])
    {
      ghost var b := buf[start..at];
      var size, next := AppendSaved(buf, start, at, left, cpus[k], all, k);
      if size > left {
        assert buf[start..at] == b;
        return;
      }
      FilledNext(b, all, room, k, buf[start..next]);
      at, filesz, left, k := next, filesz + size, left - size, k + 1;
    }
  }

  /** The merged segment at `start`, `room` bytes long at most, from the buffers of the online CPUs in
      order. As many whole notes as fit are written, and the end of the list after the last of all.
      `all` are the notes the CPUs saved and the note of the kernel's own data. */
  method FillMergedCrashNotes(cpus: seq<seq<u8>>, info: seq<u8>, buf: array<u8>, start: nat, room: nat,
                              ghost all: seq<Note>)
      returns (filesz: nat, ghost end: nat, ghost fit: nat)
    requires |all| == |cpus| + 1 && forall i :: 0 <= i < |cpus| ==> Saved(cpus[i], all[i])
    requires all[|cpus|] == Note([86, 77, 67, 79, 82, 69, 73, 78, 70, 79], 0, info) && |info| < TWO32
    requires start + room <= buf.Length
    modifies buf
    ensures fit == FitFrom(all, room, 0) && end == start + filesz <= buf.Length
    ensures Merged(buf[start..end], all, room, fit)
    ensures forall j :: 0 <= j < start || end <= j < buf.Length ==> buf[j] == old(buf[j])
  {
    var at, left, k;
    at, filesz, left, k := AppendCpus(cpus, buf, start, room, all);
    if k == |cpus| {
      var counted;
      counted, end, fit := AppendInfo(buf, start, at, left, VMCOREINFO, info, all, k, room);
      filesz := filesz + counted;
    } else {
      end, fit := at, k;
      StopHere(buf[start..end], all, room, fit);
    }
  }
}
