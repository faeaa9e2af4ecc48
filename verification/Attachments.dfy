/** The content-addressed attachment store (crates/agent-runtime/src/attachments.rs).

    `ingest` reads a file, hashes it, and unless `<hash>.<ext>` already exists
    writes a temporary file, syncs it and renames it into place. Any number of
    ingests run at once, in any number of processes; each file-system call is one
    atomic step; a process may die at any step, and the machine may lose power.

    Power loss is modelled at the level the write-then-rename discipline is
    about: contents that were not synced become arbitrary, and the directory
    falls back to any earlier state of itself. */
module Attachments {
  import opened Wrappers

  type Bytes = seq<Byte>
  type Hasher = Bytes -> string
  type Inode = nat
  type Pid = nat
  type ThreadId = nat

  // ----- File names ------------------------------------------------------------

  /** A name in the store directory: content-addressed, or temporary with the process id and
      the per-process nonce of the ingest that owns it. */
  datatype Path =
    | Final(hash: string, ext: string)
    | Temp(hash: string, ext: string, pid: Pid, nonce: nat)

  function Digit(d: nat): char
    requires d < 10
  {
    "0123456789"[d]
  }

  function Decimal(n: nat): (s: string)
    ensures s != [] && '.' !in s
  {
    if n < 10 then [Digit(n)] else Decimal(n / 10) + [Digit(n % 10)]
  }

  function Dotted(first: string, rest: string): string {
    first + "." + rest
  }

  function Render(p: Path): string {
    match p
    case Final(hash, ext) => Dotted(hash, ext)
    case Temp(hash, ext, pid, nonce) =>
      Dotted("", Dotted(hash, Dotted(ext, Dotted(Decimal(pid), Dotted(Decimal(nonce), "tmp")))))
  }

  lemma DottedTwice(a: string, b: string, rest: string)
    ensures Dotted(a, Dotted(b, rest)) == Dotted(Dotted(a, b), rest)
  {}

  /** The names in one piece: hash and extension; and with a dot before and process id, nonce and `tmp`
      after for a temporary one. */
  lemma RenderIs(hash: string, ext: string, pid: Pid, nonce: nat)
    ensures Render(Final(hash, ext)) == hash + "." + ext
    ensures Render(Temp(hash, ext, pid, nonce)) == "." + hash + "." + ext + "." + Decimal(pid) + "." + Decimal(nonce) + "." + "tmp"
  {
    var p, n := Decimal(pid), Decimal(nonce);
    DottedTwice("", hash, Dotted(ext, Dotted(p, Dotted(n, "tmp"))));
    DottedTwice(Dotted("", hash), ext, Dotted(p, Dotted(n, "tmp")));
    DottedTwice(Dotted(Dotted("", hash), ext), p, Dotted(n, "tmp"));
    DottedTwice(Dotted(Dotted(Dotted("", hash), ext), p), n, "tmp");
    assert "" + "." == ".";
  }

  function ValueOf(digits: string): int {
    if digits == "" then 0 else ValueOf(digits[..|digits| - 1]) * 10 + (digits[|digits| - 1] as int - '0' as int)
  }

  /** A number is printed in decimal. */
  lemma {:induction false} DecimalReadsBack(n: nat)
    ensures ValueOf(Decimal(n)) == n
  {
    assert Digit(n % 10) as int == '0' as int + n % 10;
    if n >= 10 {
      DecimalReadsBack(n / 10);
      assert Decimal(n)[..|Decimal(n)| - 1] == Decimal(n / 10);
    } else {
      assert [Digit(n)][..0] == [];
    }
  }

  /** A hash is printed as hexadecimal digits, and an extension is what follows the last dot. */
  predicate WellNamed(p: Path) {
    p.hash != [] && '.' !in p.hash && '.' !in p.ext
  }

  lemma {:induction false} DecimalInjective(m: nat, n: nat)
    requires Decimal(m) == Decimal(n)
    ensures m == n
  {
    var s := Decimal(m);
    assert s[|s| - 1] == Digit(m % 10) && s[|s| - 1] == Digit(n % 10);
    if m >= 10 && n >= 10 {
      assert s[..|s| - 1] == Decimal(m / 10) == Decimal(n / 10);
      DecimalInjective(m / 10, n / 10);
    }
  }

  lemma FirstDot(first: string, rest: string)
    requires '.' !in first
    ensures Dotted(first, rest)[|first|] == '.'
    ensures forall i :: 0 <= i < |first| ==> Dotted(first, rest)[i] != '.'
  {}

  lemma SplitAtFirstDot(a: string, b: string, c: string, d: string)
    requires '.' !in a && '.' !in c && Dotted(a, b) == Dotted(c, d)
    ensures a == c && b == d
  {
    FirstDot(a, b);
    FirstDot(c, d);
    assert |a| == |c|;
    assert a == Dotted(a, b)[..|a|] && b == Dotted(a, b)[|a| + 1..];
    assert c == Dotted(c, d)[..|c|] && d == Dotted(c, d)[|c| + 1..];
  }

  lemma FinalIsNoTemp(p: Path, q: Path)
    requires p.Final? && q.Temp? && WellNamed(p)
    ensures Render(p) != Render(q)
  {
    FirstDot(p.hash, p.ext);
    FirstDot("", Render(q)[1..]);
    assert Render(p)[0] != '.' && Render(q)[0] == '.';
  }

  /** Distinct names print as distinct file names: no temporary file can pose as stored content
      or as another ingest's temporary file. */
  lemma RenderInjective(p: Path, q: Path)
    requires WellNamed(p) && WellNamed(q) && Render(p) == Render(q)
    ensures p == q
  {
    match (p, q)
    case (Final(_, _), Final(_, _)) => SplitAtFirstDot(p.hash, p.ext, q.hash, q.ext);
    case (Temp(_, _, _, _), Temp(_, _, _, _)) =>
      var nonce1, nonce2 := Dotted(Decimal(p.nonce), "tmp"), Dotted(Decimal(q.nonce), "tmp");
      var pid1, pid2 := Dotted(Decimal(p.pid), nonce1), Dotted(Decimal(q.pid), nonce2);
      var ext1, ext2 := Dotted(p.ext, pid1), Dotted(q.ext, pid2);
      SplitAtFirstDot("", Dotted(p.hash, ext1), "", Dotted(q.hash, ext2));
      SplitAtFirstDot(p.hash, ext1, q.hash, ext2);
      SplitAtFirstDot(p.ext, pid1, q.ext, pid2);
      SplitAtFirstDot(Decimal(p.pid), nonce1, Decimal(q.pid), nonce2);
      SplitAtFirstDot(Decimal(p.nonce), "tmp", Decimal(q.nonce), "tmp");
      DecimalInjective(p.pid, q.pid);
      DecimalInjective(p.nonce, q.nonce);
    case (Final(_, _), Temp(_, _, _, _)) => FinalIsNoTemp(p, q);
    case (Temp(_, _, _, _), Final(_, _)) => FinalIsNoTemp(q, p);
  }

  // ----- State -------------------------------------------------------------------

  /** `synced` says the contents would survive a power loss. */
  datatype File = File(bytes: Bytes, synced: bool)

  type Directory = map<Path, Inode>

  /** `snapshots` are the directory states a power loss may fall back to; the last is current. */
  datatype Disk = Disk(files: seq<File>, snapshots: seq<Directory>)

  /** Where an ingest is. From `Writing` on it holds an open file. */
  datatype Pc =
    | Checking
    | TakingNonce
    | Creating(nonce: nat)
    | Writing(nonce: nat, file: Inode, written: nat)
    | Syncing(nonce: nat, file: Inode)
    | Renaming(nonce: nat, file: Inode)
    | CleaningUp(nonce: nat)
    | Succeeded(path: Path, deduplicated: bool)
    | Failed

  datatype Ingest = Ingest(pid: Pid, data: Bytes, ext: string, pc: Pc)

  /** `processes` maps each live process to its nonce counter. */
  datatype State = State(disk: Disk, processes: map<Pid, nat>, ingests: map<ThreadId, Ingest>)

  const INIT := State(Disk([], [map[]]), map[], map[])

  function Dir(d: Disk): Directory {
    if d.snapshots == [] then map[] else d.snapshots[|d.snapshots| - 1]
  }

  function TempOf(hash: Hasher, g: Ingest, nonce: nat): Path {
    Temp(hash(g.data), g.ext, g.pid, nonce)
  }

  function FinalOf(hash: Hasher, g: Ingest): Path {
    Final(hash(g.data), g.ext)
  }

  // ----- File-system calls ----------------------------------------------------------

  function Enter(d: Disk, dir: Directory): Disk {
    d.(snapshots := d.snapshots + [dir])
  }

  /** Create or truncate: an existing name keeps its file, which loses its contents. */
  function CreateFile(d: Disk, p: Path): (Disk, Inode)
    requires (p in Dir(d) ==> Dir(d)[p] < |d.files|)
  {
    if p in Dir(d) then (d.(files := d.files[Dir(d)[p] := File([], false)]), Dir(d)[p])
    else (Enter(d.(files := d.files + [File([], false)]), Dir(d)[p := |d.files|]), |d.files|)
  }

  function AppendFile(d: Disk, i: Inode, bytes: Bytes): Disk
    requires i < |d.files|
  {
    d.(files := d.files[i := File(d.files[i].bytes + bytes, false)])
  }

  function SyncFile(d: Disk, i: Inode): Disk
    requires i < |d.files|
  {
    d.(files := d.files[i := d.files[i].(synced := true)])
  }

  function RenameFile(d: Disk, from: Path, to: Path): Disk
    requires from in Dir(d)
  {
    Enter(d, (Dir(d) - {from})[to := Dir(d)[from]])
  }

  function RemoveFile(d: Disk, p: Path): Disk
  {
    if p in Dir(d) then Enter(d, Dir(d) - {p}) else d
  }

  // ----- Steps ------------------------------------------------------------------------

  datatype Step =
    | StartProcess(pid: Pid)
    | KillProcess(pid: Pid)
    | LosePower(keep: nat, garbage: seq<Bytes>)
    | Begin(thread: ThreadId, pid: Pid, data: Bytes, ext: string)
    | Act(thread: ThreadId, amount: nat)
    | Fail(thread: ThreadId)
    | CleanupFails(thread: ThreadId)

  /** Every name points to a file. */
  ghost predicate Grounded(d: Disk) {
    d.snapshots != [] && forall k, p :: 0 <= k < |d.snapshots| && p in d.snapshots[k] ==> d.snapshots[k][p] < |d.files|
  }

  /** A write may move any nonempty part of what is left. */
  ghost predicate CanAct(hash: Hasher, s: State, g: Ingest, amount: nat) {
    Grounded(s.disk) && g.pid in s.processes &&
    match g.pc
    case Writing(_, i, written) => i < |s.disk.files| && (written < |g.data| ==> 0 < amount <= |g.data| - written)
    case Syncing(_, i) => i < |s.disk.files|
    case Renaming(nonce, _) => TempOf(hash, g, nonce) in Dir(s.disk)
    case Succeeded(_, _) => false
    case Failed => false
    case _ => true
  }

  ghost predicate Enabled(hash: Hasher, s: State, step: Step) {
    match step
    case StartProcess(pid) => pid !in s.processes
    case KillProcess(pid) => pid in s.processes
    case LosePower(keep, garbage) => keep < |s.disk.snapshots| && |garbage| == |s.disk.files|
    case Begin(t, pid, _, _) => t !in s.ingests && pid in s.processes
    case Act(t, amount) => t in s.ingests && CanAct(hash, s, s.ingests[t], amount)
    case Fail(t) => t in s.ingests && var pc := s.ingests[t].pc;
                    pc.TakingNonce? || pc.Creating? || pc.Writing? || pc.Syncing? || pc.Renaming?
    case CleanupFails(t) => t in s.ingests && s.ingests[t].pc.CleaningUp?
  }

  /** What the next call of an ingest does to the disk. */
  ghost function DiskAfter(hash: Hasher, s: State, g: Ingest, amount: nat): Disk
    requires CanAct(hash, s, g, amount)
  {
    var d := s.disk;
    match g.pc
    case Creating(nonce) => CreateFile(d, TempOf(hash, g, nonce)).0
    case Writing(_, i, written) => if written < |g.data| then AppendFile(d, i, g.data[written..written + amount]) else d
    case Syncing(_, i) => SyncFile(d, i)
    case Renaming(nonce, _) => RenameFile(d, TempOf(hash, g, nonce), FinalOf(hash, g))
    case CleaningUp(nonce) => RemoveFile(d, TempOf(hash, g, nonce))
    case _ => d
  }

  /** Where it goes next. */
  ghost function PcAfter(hash: Hasher, s: State, g: Ingest, amount: nat): Pc
    requires CanAct(hash, s, g, amount)
  {
    match g.pc
    case Checking => if FinalOf(hash, g) in Dir(s.disk) then Succeeded(FinalOf(hash, g), true) else TakingNonce
    case TakingNonce => Creating(s.processes[g.pid])
    case Creating(nonce) => Writing(nonce, CreateFile(s.disk, TempOf(hash, g, nonce)).1, 0)
    case Writing(nonce, i, written) => if written < |g.data| then Writing(nonce, i, written + amount) else Syncing(nonce, i)
    case Syncing(nonce, i) => Renaming(nonce, i)
    case Renaming(_, _) => Succeeded(FinalOf(hash, g), false)
    case CleaningUp(_) => Failed
  }

  function AfterPowerLoss(d: Disk, keep: nat, garbage: seq<Bytes>): Disk
    requires keep < |d.snapshots| && |garbage| == |d.files|
  {
    Disk(seq(|d.files|, i requires 0 <= i < |d.files| =>
             if d.files[i].synced then d.files[i] else File(garbage[i], false)),
         d.snapshots[..keep + 1])
  }

  ghost function Do(hash: Hasher, s: State, step: Step): State
    requires Enabled(hash, s, step)
  {
    match step
    case StartProcess(pid) => s.(processes := s.processes[pid := 0])
    case KillProcess(pid) => s.(processes := s.processes - {pid},
                                ingests := map t | t in s.ingests && s.ingests[t].pid != pid :: s.ingests[t])
    case LosePower(keep, garbage) => State(AfterPowerLoss(s.disk, keep, garbage), map[], map[])
    case Begin(t, pid, data, ext) => s.(ingests := s.ingests[t := Ingest(pid, data, ext, Checking)])
    case Act(t, amount) =>
      var g := s.ingests[t];
      State(DiskAfter(hash, s, g, amount),
            if g.pc.TakingNonce? then s.processes[g.pid := s.processes[g.pid] + 1] else s.processes,
            s.ingests[t := g.(pc := PcAfter(hash, s, g, amount))])
    case Fail(t) =>
      var g := s.ingests[t];
      s.(ingests := s.ingests[t := g.(pc := if g.pc.TakingNonce? then Failed else CleaningUp(g.pc.nonce))])
    case CleanupFails(t) => s.(ingests := s.ingests[t := s.ingests[t].(pc := Failed)])
  }

  ghost predicate Moves(hash: Hasher, s: State, step: Step, t: State) {
    Enabled(hash, s, step) && t == Do(hash, s, step)
  }

  /** Any interleaving of steps, from an empty store and no processes. */
  ghost predicate IsRun(hash: Hasher, run: seq<State>, steps: seq<Step>) {
    |run| == |steps| + 1 && run[0] == INIT &&
    forall k {:trigger steps[k]} :: 0 <= k < |steps| ==> Moves(hash, run[k], steps[k], run[k + 1])
  }

  // ----- The invariant -----------------------------------------------------------------

  /** The file holds complete, durable contents with that hash. */
  predicate Sealed(hash: Hasher, d: Disk, i: Inode, h: string) {
    i < |d.files| && d.files[i].synced && hash(d.files[i].bytes) == h
  }

  /** In the current directory and in every state it may fall back to, a content-addressed name
      holds complete contents. */
  ghost predicate FinalsSealed(hash: Hasher, d: Disk) {
    forall k, p :: 0 <= k < |d.snapshots| && p in d.snapshots[k] && p.Final? ==> Sealed(hash, d, d.snapshots[k][p], p.hash)
  }

  /** A file under a temporary name has no other temporary name, and never had a
      content-addressed one: it may be truncated without harm. */
  ghost predicate TempsApart(d: Disk) {
    (forall k, p, q | 0 <= k < |d.snapshots| && p in d.snapshots[k] && q in d.snapshots[k] ::
       p.Temp? && q.Temp? && d.snapshots[k][p] == d.snapshots[k][q] ==> p == q) &&
    (forall j, k, p, q | 0 <= j <= k < |d.snapshots| && q in d.snapshots[j] && p in d.snapshots[k] ::
       q.Final? && p.Temp? ==> d.snapshots[j][q] != d.snapshots[k][p])
  }

  ghost predicate DiskInv(hash: Hasher, d: Disk) {
    Grounded(d) && FinalsSealed(hash, d) && TempsApart(d)
  }

  function NonceOf(pc: Pc): Option<nat> {
    match pc
    case Creating(n) => Some(n)
    case Writing(n, _, _) => Some(n)
    case Syncing(n, _) => Some(n)
    case Renaming(n, _) => Some(n)
    case CleaningUp(n) => Some(n)
    case _ => None
  }

  predicate OpenUnder(d: Disk, p: Path, i: Inode)
  {
    p in Dir(d) && Dir(d)[p] == i && i < |d.files|
  }

  /** What an open file holds, and that it is still under its temporary name. */
  ghost predicate IngestInv(hash: Hasher, d: Disk, g: Ingest)
  {
    match g.pc
    case Writing(nonce, i, written) =>
      OpenUnder(d, TempOf(hash, g, nonce), i) && written <= |g.data| && d.files[i].bytes == g.data[..written]
    case Syncing(nonce, i) => OpenUnder(d, TempOf(hash, g, nonce), i) && d.files[i].bytes == g.data
    case Renaming(nonce, i) => OpenUnder(d, TempOf(hash, g, nonce), i) && d.files[i] == File(g.data, true)
    case Succeeded(path, _) => path == FinalOf(hash, g) && path in Dir(d)
    case _ => true
  }

  /** Live ingests have distinct nonces, or distinct processes. */
  ghost predicate NoncesApart(processes: map<Pid, nat>, ingests: map<ThreadId, Ingest>) {
    (forall t :: t in ingests ==> ingests[t].pid in processes) &&
    (forall t :: t in ingests && NonceOf(ingests[t].pc).Some? ==> NonceOf(ingests[t].pc).value < processes[ingests[t].pid]) &&
    (forall t, u | t in ingests && u in ingests && t != u && ingests[t].pid == ingests[u].pid ::
       NonceOf(ingests[t].pc).Some? ==> NonceOf(ingests[t].pc) != NonceOf(ingests[u].pc))
  }

  ghost predicate Inv(hash: Hasher, s: State) {
    DiskInv(hash, s.disk) && NoncesApart(s.processes, s.ingests) &&
    forall t :: t in s.ingests ==> IngestInv(hash, s.disk, s.ingests[t])
  }

  // ----- Each file-system call keeps the disk invariant ------------------------------------

  /** A write to a file under a temporary name disturbs no stored content. */
  lemma ChangingTempKeepsDisk(hash: Hasher, d: Disk, p: Path, i: Inode, f: File)
    requires DiskInv(hash, d) && p.Temp? && OpenUnder(d, p, i)
    ensures DiskInv(hash, d.(files := d.files[i := f]))
  {}

  lemma EnteringKeepsDisk(hash: Hasher, d: Disk, dir: Directory)
    requires DiskInv(hash, d)
    requires forall p :: p in dir ==> dir[p] < |d.files|
    requires forall p :: p in dir && p.Final? ==> Sealed(hash, d, dir[p], p.hash)
    requires forall p, q :: p in dir && q in dir && p.Temp? && (q.Temp? ==> p != q) ==> dir[p] != dir[q]
    requires forall p :: p in dir && p.Temp? ==>
                         (p in Dir(d) && Dir(d)[p] == dir[p]) ||
                         forall k, q :: 0 <= k < |d.snapshots| && q in d.snapshots[k] ==> d.snapshots[k][q] != dir[p]
    ensures DiskInv(hash, Enter(d, dir))
  {
    var d' := Enter(d, dir);
    var n := |d.snapshots|;
    assert d'.snapshots[n] == dir && forall k :: 0 <= k < n ==> d'.snapshots[k] == d.snapshots[k];
    forall j, k, p, q | 0 <= j <= k < |d'.snapshots| && q in d'.snapshots[j] && q.Final? && p in d'.snapshots[k] && p.Temp?
      ensures d'.snapshots[j][q] != d'.snapshots[k][p]
    {
      if k == n && j < n && p in Dir(d) && Dir(d)[p] == dir[p] {
        assert d.snapshots[j][q] != d.snapshots[n - 1][p];
      }
    }
  }

  lemma GrowingKeepsDisk(hash: Hasher, d: Disk, f: File)
    requires DiskInv(hash, d)
    ensures DiskInv(hash, d.(files := d.files + [f]))
  {}

  lemma CreateKeepsDisk(hash: Hasher, d: Disk, p: Path)
    requires DiskInv(hash, d) && p.Temp?
    ensures DiskInv(hash, CreateFile(d, p).0) && OpenUnder(CreateFile(d, p).0, p, CreateFile(d, p).1)
  {
    if p in Dir(d) {
      ChangingTempKeepsDisk(hash, d, p, Dir(d)[p], File([], false));
    } else {
      var d1 := d.(files := d.files + [File([], false)]);
      GrowingKeepsDisk(hash, d, File([], false));
      assert forall k, q :: 0 <= k < |d1.snapshots| && q in d1.snapshots[k] ==> d1.snapshots[k][q] < |d.files|;
      EnteringKeepsDisk(hash, d1, Dir(d)[p := |d.files|]);
    }
  }

  lemma RenameKeepsDisk(hash: Hasher, d: Disk, from: Path, to: Path)
    requires DiskInv(hash, d) && from.Temp? && to.Final? && from in Dir(d)
    requires Sealed(hash, d, Dir(d)[from], to.hash)
    ensures DiskInv(hash, RenameFile(d, from, to))
  {
    EnteringKeepsDisk(hash, d, (Dir(d) - {from})[to := Dir(d)[from]]);
  }

  lemma RemoveKeepsDisk(hash: Hasher, d: Disk, p: Path)
    requires DiskInv(hash, d)
    ensures DiskInv(hash, RemoveFile(d, p))
  {
    if p in Dir(d) {
      EnteringKeepsDisk(hash, d, Dir(d) - {p});
    }
  }

  /** A power loss can undo directory changes and scramble unsynced files, but not stored content. */
  lemma PowerLossKeepsDisk(hash: Hasher, d: Disk, keep: nat, garbage: seq<Bytes>)
    requires DiskInv(hash, d) && keep < |d.snapshots| && |garbage| == |d.files|
    ensures DiskInv(hash, AfterPowerLoss(d, keep, garbage))
  {}

  // ----- Each step keeps the invariant ---------------------------------------------------------

  /** What an ingest may do to the disk without upsetting another one: keep every file but its
      own, and every name but its own temporary one. */
  ghost predicate Leaves(d: Disk, d': Disk, own: Path, file: Option<Inode>)
  {
    |d.files| <= |d'.files| &&
    (forall i :: 0 <= i < |d.files| && file != Some(i) ==> d'.files[i] == d.files[i]) &&
    (forall p :: p in Dir(d) && p != own ==> p in Dir(d') && (p.Temp? ==> Dir(d')[p] == Dir(d)[p]))
  }

  lemma OthersUndisturbed(hash: Hasher, d: Disk, d': Disk, own: Path, file: Option<Inode>, g: Ingest)
    requires DiskInv(hash, d) && Leaves(d, d', own, file) && own.Temp?
    requires file.Some? ==> own in Dir(d) && Dir(d)[own] == file.value
    requires IngestInv(hash, d, g) && (NonceOf(g.pc).Some? ==> TempOf(hash, g, NonceOf(g.pc).value) != own)
    ensures IngestInv(hash, d', g)
  {}

  /** The disk after one call of `g`, and `g` itself, are as the other ingests rely on. */
  ghost predicate Sound(hash: Hasher, d: Disk, d': Disk, g': Ingest, own: Path, isOpen: bool) {
    DiskInv(hash, d') && IngestInv(hash, d', g') &&
    Leaves(d, d', own, if isOpen && own in Dir(d) then Some(Dir(d)[own]) else None)
  }

  lemma OpenIsSound(hash: Hasher, d: Disk, g: Ingest, own: Path)
    requires DiskInv(hash, d) && g.pc.Creating? && own == TempOf(hash, g, g.pc.nonce)
    ensures Sound(hash, d, CreateFile(d, own).0, g.(pc := Writing(g.pc.nonce, CreateFile(d, own).1, 0)), own, true)
  {
    CreateKeepsDisk(hash, d, own);
  }

  lemma WriteIsSound(hash: Hasher, d: Disk, g: Ingest, amount: nat, own: Path)
    requires DiskInv(hash, d) && IngestInv(hash, d, g) && g.pc.Writing? && own == TempOf(hash, g, g.pc.nonce)
    requires g.pc.written + amount <= |g.data|
    ensures Sound(hash, d, AppendFile(d, g.pc.file, g.data[g.pc.written..g.pc.written + amount]),
                  g.(pc := Writing(g.pc.nonce, g.pc.file, g.pc.written + amount)), own, true)
  {}

  lemma SyncIsSound(hash: Hasher, d: Disk, g: Ingest, own: Path)
    requires DiskInv(hash, d) && IngestInv(hash, d, g) && g.pc.Syncing? && own == TempOf(hash, g, g.pc.nonce)
    ensures Sound(hash, d, SyncFile(d, g.pc.file), g.(pc := Renaming(g.pc.nonce, g.pc.file)), own, true)
  {}

  lemma RenameIsSound(hash: Hasher, d: Disk, g: Ingest, own: Path)
    requires DiskInv(hash, d) && IngestInv(hash, d, g) && g.pc.Renaming? && own == TempOf(hash, g, g.pc.nonce)
    ensures Sound(hash, d, RenameFile(d, own, FinalOf(hash, g)), g.(pc := Succeeded(FinalOf(hash, g), false)), own, true)
  {
    RenameKeepsDisk(hash, d, own, FinalOf(hash, g));
  }

  lemma RemoveIsSound(hash: Hasher, d: Disk, g: Ingest, own: Path)
    requires DiskInv(hash, d) && own.Temp?
    ensures Sound(hash, d, RemoveFile(d, own), g.(pc := Failed), own, true)
  {
    RemoveKeepsDisk(hash, d, own);
  }

  lemma LookingIsSound(hash: Hasher, s: State, g: Ingest, amount: nat, own: Path)
    requires DiskInv(hash, s.disk) && CanAct(hash, s, g, amount) && IngestInv(hash, s.disk, g)
    requires own.Temp? && (NonceOf(g.pc).Some? ==> own == TempOf(hash, g, NonceOf(g.pc).value))
    requires g.pc.Checking? || g.pc.TakingNonce?
    ensures Sound(hash, s.disk, DiskAfter(hash, s, g, amount), g.(pc := PcAfter(hash, s, g, amount)), own, NonceOf(g.pc).Some?)
  {}

  lemma WritingIsSound(hash: Hasher, s: State, g: Ingest, amount: nat, own: Path)
    requires DiskInv(hash, s.disk) && CanAct(hash, s, g, amount) && IngestInv(hash, s.disk, g)
    requires own.Temp? && (NonceOf(g.pc).Some? ==> own == TempOf(hash, g, NonceOf(g.pc).value))
    requires g.pc.Writing? && g.pc.written < |g.data|
    ensures Sound(hash, s.disk, DiskAfter(hash, s, g, amount), g.(pc := PcAfter(hash, s, g, amount)), own, NonceOf(g.pc).Some?)
  {
    var d', pc' := DiskAfter(hash, s, g, amount), PcAfter(hash, s, g, amount);
    assert d' == AppendFile(s.disk, g.pc.file, g.data[g.pc.written..g.pc.written + amount]);
    assert pc' == Writing(g.pc.nonce, g.pc.file, g.pc.written + amount);
    WriteIsSound(hash, s.disk, g, amount, own);
  }

  lemma WritingEndIsSound(hash: Hasher, s: State, g: Ingest, amount: nat, own: Path)
    requires DiskInv(hash, s.disk) && CanAct(hash, s, g, amount) && IngestInv(hash, s.disk, g)
    requires own.Temp? && (NonceOf(g.pc).Some? ==> own == TempOf(hash, g, NonceOf(g.pc).value))
    requires g.pc.Writing? && g.pc.written >= |g.data|
    ensures Sound(hash, s.disk, DiskAfter(hash, s, g, amount), g.(pc := PcAfter(hash, s, g, amount)), own, NonceOf(g.pc).Some?)
  {}

  lemma FinishingIsSound(hash: Hasher, s: State, g: Ingest, amount: nat, own: Path)
    requires DiskInv(hash, s.disk) && CanAct(hash, s, g, amount) && IngestInv(hash, s.disk, g)
    requires own.Temp? && (NonceOf(g.pc).Some? ==> own == TempOf(hash, g, NonceOf(g.pc).value))
    requires g.pc.Syncing? || g.pc.Renaming? || g.pc.CleaningUp?
    ensures Sound(hash, s.disk, DiskAfter(hash, s, g, amount), g.(pc := PcAfter(hash, s, g, amount)), own, NonceOf(g.pc).Some?)
  {
    match g.pc
    case Syncing(_, _) => SyncIsSound(hash, s.disk, g, own);
    case Renaming(_, _) => RenameIsSound(hash, s.disk, g, own);
    case CleaningUp(_) => RemoveIsSound(hash, s.disk, g, own);
  }

  /** The call an ingest makes next keeps the disk invariant, its own invariant, and everything
      another ingest relies on. */
  lemma ActIsSound(hash: Hasher, s: State, g: Ingest, amount: nat, own: Path)
    requires DiskInv(hash, s.disk) && CanAct(hash, s, g, amount) && IngestInv(hash, s.disk, g)
    requires own.Temp? && (NonceOf(g.pc).Some? ==> own == TempOf(hash, g, NonceOf(g.pc).value))
    ensures Sound(hash, s.disk, DiskAfter(hash, s, g, amount), g.(pc := PcAfter(hash, s, g, amount)), own, NonceOf(g.pc).Some?)
  {
    match g.pc
    case Creating(_) => OpenIsSound(hash, s.disk, g, own);
    case Writing(_, _, written) =>
      if written < |g.data| {
        WritingIsSound(hash, s, g, amount, own);
      } else {
        WritingEndIsSound(hash, s, g, amount, own);
      }
    case Checking | TakingNonce => LookingIsSound(hash, s, g, amount, own);
    case _ => FinishingIsSound(hash, s, g, amount, own);
  }

  lemma ActKeepsNonces(hash: Hasher, s: State, t: ThreadId, amount: nat)
    requires NoncesApart(s.processes, s.ingests) && t in s.ingests && CanAct(hash, s, s.ingests[t], amount)
    ensures var s' := Do(hash, s, Act(t, amount)); NoncesApart(s'.processes, s'.ingests)
  {
    var g := s.ingests[t];
    var next := PcAfter(hash, s, g, amount);
    assert NonceOf(next).None? || NonceOf(next) == NonceOf(g.pc) || (g.pc.TakingNonce? && next == Creating(s.processes[g.pid]));
  }

  lemma ActKeepsInv(hash: Hasher, s: State, t: ThreadId, amount: nat)
    requires Inv(hash, s) && Enabled(hash, s, Act(t, amount))
    ensures Inv(hash, Do(hash, s, Act(t, amount)))
  {
    var g := s.ingests[t];
    var nonce := if NonceOf(g.pc).Some? then NonceOf(g.pc).value else s.processes[g.pid];
    var own := TempOf(hash, g, nonce);
    var file := if own in Dir(s.disk) && NonceOf(g.pc).Some? then Some(Dir(s.disk)[own]) else None;
    var s' := Do(hash, s, Act(t, amount));
    ActKeepsNonces(hash, s, t, amount);
    ActIsSound(hash, s, g, amount, own);
    forall u | u in s'.ingests && u != t ensures IngestInv(hash, s'.disk, s'.ingests[u]) {
      var h := s.ingests[u];
      assert IngestInv(hash, s.disk, h);
      if NonceOf(h.pc).Some? && h.pid == g.pid {
        assert NonceOf(h.pc).value != nonce;
      }
      OthersUndisturbed(hash, s.disk, s'.disk, own, file, h);
    }
  }

  /** Processes come and go without touching the disk. */
  lemma ProcessKeepsInv(hash: Hasher, s: State, step: Step)
    requires Inv(hash, s) && Enabled(hash, s, step) && (step.StartProcess? || step.KillProcess?)
    ensures Inv(hash, Do(hash, s, step))
  {}

  /** So do ingests that begin or fail. */
  lemma BookkeepingKeepsInv(hash: Hasher, s: State, step: Step)
    requires Inv(hash, s) && Enabled(hash, s, step) && (step.Begin? || step.Fail? || step.CleanupFails?)
    ensures Inv(hash, Do(hash, s, step))
  {
    var s' := Do(hash, s, step);
    var t := step.thread;
    assert s'.disk == s.disk && s'.ingests == s.ingests[t := s'.ingests[t]];
    assert IngestInv(hash, s.disk, s'.ingests[t]);
    if step.Begin? || step.CleanupFails? {
      assert NonceOf(s'.ingests[t].pc) == None;
    } else {
      assert NonceOf(s'.ingests[t].pc) in {None, NonceOf(s.ingests[t].pc)};
      assert s'.ingests[t].pid == s.ingests[t].pid;
    }
    assert NoncesApart(s'.processes, s'.ingests);
  }

  lemma StepKeepsInv(hash: Hasher, s: State, step: Step)
    requires Inv(hash, s) && Enabled(hash, s, step)
    ensures Inv(hash, Do(hash, s, step))
  {
    if step.Act? {
      ActKeepsInv(hash, s, step.thread, step.amount);
    } else if step.LosePower? {
      PowerLossKeepsDisk(hash, s.disk, step.keep, step.garbage);
    } else if step.StartProcess? || step.KillProcess? {
      ProcessKeepsInv(hash, s, step);
    } else {
      BookkeepingKeepsInv(hash, s, step);
    }
  }

  lemma MoveKeepsInv(hash: Hasher, s: State, step: Step, t: State)
    requires Inv(hash, s) && Moves(hash, s, step, t)
    ensures Inv(hash, t)
  {
    StepKeepsInv(hash, s, step);
  }

  lemma RunStartsWithInv(hash: Hasher, run: seq<State>, steps: seq<Step>)
    requires IsRun(hash, run, steps)
    ensures Inv(hash, run[0])
  {}

  lemma NextHasInv(hash: Hasher, run: seq<State>, steps: seq<Step>, k: nat)
    requires IsRun(hash, run, steps) && k < |steps| && Inv(hash, run[k])
    ensures Inv(hash, run[k + 1])
  {
    MoveKeepsInv(hash, run[k], steps[k], run[k + 1]);
  }

  lemma RunKeepsInv(hash: Hasher, run: seq<State>, steps: seq<Step>, k: nat)
    requires IsRun(hash, run, steps) && k < |run|
    ensures Inv(hash, run[k])
  {
    RunStartsWithInv(hash, run, steps);
    for i := 0 to k
      invariant Inv(hash, run[i])
    {
      NextHasInv(hash, run, steps, i);
    }
  }

  // ----- What every run promises -----------------------------------------------------------------

  lemma CurrentIsSealed(hash: Hasher, d: Disk, p: Path)
    requires DiskInv(hash, d) && p.Final? && p in Dir(d)
    ensures Sealed(hash, d, Dir(d)[p], p.hash)
  {}

  /** In every reachable state, whatever the interleaving, the crashes and the power losses, a
      file named `<hash>.<ext>` holds complete bytes with that hash. */
  lemma StoredContentIsComplete(hash: Hasher, run: seq<State>, steps: seq<Step>, k: nat, p: Path)
    requires IsRun(hash, run, steps) && k < |run|
    requires p.Final? && p in Dir(run[k].disk)
    ensures var d := run[k].disk; Dir(d)[p] < |d.files| && hash(d.files[Dir(d)[p]].bytes) == p.hash
  {
    RunKeepsInv(hash, run, steps, k);
    CurrentIsSealed(hash, run[k].disk, p);
  }

  /** Step `j` began ingest `t`, and no later one of the first `k` did. */
  ghost predicate Began(steps: seq<Step>, j: nat, k: nat, t: ThreadId, g: Ingest) {
    j < k <= |steps| && steps[j] == Begin(t, g.pid, g.data, g.ext) && forall m :: j < m < k ==> !(steps[m].Begin? && steps[m].thread == t)
  }

  lemma MoveKeepsIngest(hash: Hasher, s: State, step: Step, s': State, t: ThreadId)
    requires Moves(hash, s, step, s') && t in s'.ingests && !(step.Begin? && step.thread == t)
    ensures t in s.ingests && s'.ingests[t].pid == s.ingests[t].pid && s'.ingests[t].data == s.ingests[t].data &&
            s'.ingests[t].ext == s.ingests[t].ext
  {}

  /** Every ingest works on the data and extension it was begun with. */
  lemma {:induction false} IngestWasBegun(hash: Hasher, run: seq<State>, steps: seq<Step>, k: nat, t: ThreadId) returns (j: nat)
    requires IsRun(hash, run, steps) && k < |run| && t in run[k].ingests
    ensures Began(steps, j, k, t, run[k].ingests[t])
  {
    var step := steps[k - 1];
    if step.Begin? && step.thread == t {
      assert Moves(hash, run[k - 1], step, run[k]);
      j := k - 1;
    } else {
      MoveKeepsIngest(hash, run[k - 1], step, run[k], t);
      j := IngestWasBegun(hash, run, steps, k - 1, t);
    }
  }

  /** A successful ingest returned the name made of the hash of the data it was begun with and of its
      extension, and bytes with that hash are stored there. */
  lemma SuccessNamesItsData(hash: Hasher, run: seq<State>, steps: seq<Step>, k: nat, t: ThreadId) returns (j: nat)
    requires IsRun(hash, run, steps) && k < |run|
    requires t in run[k].ingests && run[k].ingests[t].pc.Succeeded?
    ensures Began(steps, j, k, t, run[k].ingests[t])
    ensures var d, path := run[k].disk, run[k].ingests[t].pc.path;
            path == Final(hash(steps[j].data), steps[j].ext) && path in Dir(d) && Dir(d)[path] < |d.files| &&
            hash(d.files[Dir(d)[path]].bytes) == hash(steps[j].data)
  {
    j := IngestWasBegun(hash, run, steps, k, t);
    RunKeepsInv(hash, run, steps, k);
    assert IngestInv(hash, run[k].disk, run[k].ingests[t]);
    StoredContentIsComplete(hash, run, steps, k, run[k].ingests[t].pc.path);
  }

  /** An ingest is deduplicated iff its name is in the store when it looks, and looking changes nothing. */
  lemma DeduplicatesIff(hash: Hasher, run: seq<State>, steps: seq<Step>, k: nat, t: ThreadId, amount: nat)
    requires IsRun(hash, run, steps) && k < |steps| && steps[k] == Act(t, amount)
    requires t in run[k].ingests && run[k].ingests[t].pc.Checking?
    ensures var g, pc := run[k].ingests[t], run[k + 1].ingests[t].pc;
            var path := Final(hash(g.data), g.ext);
            run[k + 1].disk == run[k].disk && pc == if path in Dir(run[k].disk) then Succeeded(path, true) else TakingNonce
  {
    assert Moves(hash, run[k], steps[k], run[k + 1]);
  }

  /** While it is writing, an ingest has what it has written so far under its own temporary name. */
  lemma OpenFileIsOwn(hash: Hasher, run: seq<State>, steps: seq<Step>, k: nat, t: ThreadId)
    requires IsRun(hash, run, steps) && k < |run| && t in run[k].ingests && run[k].ingests[t].pc.Writing?
    ensures var g, d := run[k].ingests[t], run[k].disk;
            var own := Temp(hash(g.data), g.ext, g.pid, g.pc.nonce);
            own in Dir(d) && Dir(d)[own] == g.pc.file < |d.files| && g.pc.written <= |g.data| &&
            d.files[g.pc.file].bytes == g.data[..g.pc.written]
  {
    RunKeepsInv(hash, run, steps, k);
    assert IngestInv(hash, run[k].disk, run[k].ingests[t]);
  }

  /** An ingest that renames its file stores exactly its data, durably, and leaves no temporary name. */
  lemma RenameStoresTheData(hash: Hasher, run: seq<State>, steps: seq<Step>, k: nat, t: ThreadId, amount: nat)
    requires IsRun(hash, run, steps) && k < |steps| && steps[k] == Act(t, amount)
    requires t in run[k].ingests && run[k].ingests[t].pc.Renaming?
    ensures var g, d := run[k].ingests[t], run[k + 1].disk;
            var path, own := Final(hash(g.data), g.ext), Temp(hash(g.data), g.ext, g.pid, g.pc.nonce);
            run[k + 1].ingests[t].pc == Succeeded(path, false) &&
            path in Dir(d) && Dir(d)[path] < |d.files| && d.files[Dir(d)[path]] == File(g.data, true) && own !in Dir(d)
  {
    RunKeepsInv(hash, run, steps, k);
    assert IngestInv(hash, run[k].disk, run[k].ingests[t]);
    assert Moves(hash, run[k], steps[k], run[k + 1]);
  }

  /** An ingest that fails to write takes its temporary name away, and no other. */
  lemma CleanupRemovesOwn(hash: Hasher, run: seq<State>, steps: seq<Step>, k: nat, t: ThreadId, amount: nat)
    requires IsRun(hash, run, steps) && k < |steps| && steps[k] == Act(t, amount)
    requires t in run[k].ingests && run[k].ingests[t].pc.CleaningUp?
    ensures var g := run[k].ingests[t];
            run[k + 1].ingests[t].pc == Failed && run[k + 1].disk.files == run[k].disk.files &&
            Dir(run[k + 1].disk) == Dir(run[k].disk) - {Temp(hash(g.data), g.ext, g.pid, g.pc.nonce)}
  {
    assert Moves(hash, run[k], steps[k], run[k + 1]);
  }

  /** How many calls an ingest may still make, one byte a write. */
  function CallsLeft(g: Ingest): nat {
    match g.pc
    case Checking => |g.data| + 6
    case TakingNonce => |g.data| + 5
    case Creating(_) => |g.data| + 4
    case Writing(_, _, written) => (if written < |g.data| then |g.data| - written else 0) + 3
    case Syncing(_, _) => 2
    case Renaming(_, _) => 1
    case CleaningUp(_) => 1
    case _ => 0
  }

  /** Every call brings an ingest nearer to its end. */
  lemma CallsEnd(hash: Hasher, run: seq<State>, steps: seq<Step>, k: nat, t: ThreadId, amount: nat)
    requires IsRun(hash, run, steps) && k < |steps| && steps[k] == Act(t, amount) && t in run[k].ingests
    ensures t in run[k + 1].ingests && CallsLeft(run[k + 1].ingests[t]) < CallsLeft(run[k].ingests[t])
  {
    assert Moves(hash, run[k], steps[k], run[k + 1]);
  }

  /** No ingest ever gets stuck: the guards of its next call hold in every reachable state. */
  lemma IngestCanAct(hash: Hasher, run: seq<State>, steps: seq<Step>, k: nat, t: ThreadId)
    requires IsRun(hash, run, steps) && k < |run|
    requires t in run[k].ingests && !run[k].ingests[t].pc.Succeeded? && !run[k].ingests[t].pc.Failed?
    ensures exists amount :: Enabled(hash, run[k], Act(t, amount))
  {
    RunKeepsInv(hash, run, steps, k);
    var g := run[k].ingests[t];
    assert IngestInv(hash, run[k].disk, g);
    assert Enabled(hash, run[k], Act(t, if g.pc.Writing? && g.pc.written < |g.data| then 1 else 0));
  }

  lemma MoveKeepsFinals(hash: Hasher, s: State, step: Step, t: State, p: Path)
    requires Inv(hash, s) && Moves(hash, s, step, t) && !step.LosePower?
    requires p.Final? && p in Dir(s.disk)
    ensures p in Dir(t.disk)
  {}

  /** Short of a power loss nothing ever leaves the store: what one ingest stored, every later
      reader and every later dedup check still finds. */
  lemma {:induction false} StoredContentStays(hash: Hasher, run: seq<State>, steps: seq<Step>, j: nat, k: nat, p: Path)
    requires IsRun(hash, run, steps) && j <= k < |run|
    requires forall m :: j <= m < k ==> !steps[m].LosePower?
    requires p.Final? && p in Dir(run[j].disk)
    ensures p in Dir(run[k].disk)
    decreases k - j
  {
    if j < k {
      StoredContentStays(hash, run, steps, j, k - 1, p);
      RunKeepsInv(hash, run, steps, k - 1);
      MoveKeepsFinals(hash, run[k - 1], steps[k - 1], run[k], p);
    }
  }
}
