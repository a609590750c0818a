/** The on-disk redo log, block write by block write, and what a crash leaves behind.

    A `Disk` is the whole device. `CommitTrace` and `RecoverTrace` list the disk after each
    single block write of commit() and recover_from_log(); a crash keeps any one of these states.
    `Promised` says, without reference to any loop, what a block will hold once recovery is over. */
module Recovery {
  import opened Params
  import opened Blocks

  /** log.start and log.size: the header block followed by size - 1 log blocks. */
  datatype Layout = Layout(start: nat, size: nat) {
    predicate Holds(b: nat) {
      start <= b < start + size
    }

    predicate Fits(d: Disk) {
      0 < size && start + size <= |d| <= WORD_MOD
    }

    /** Block numbers a transaction may log: distinct home blocks that the log has room for. */
    predicate Loggable(bs: seq<nat>, d: Disk) {
      && |bs| <= LOGSIZE
      && |bs| < size
      && (forall i :: 0 <= i < |bs| ==> bs[i] < |d| && !Holds(bs[i]))
      && (forall i, j :: 0 <= i < j < |bs| ==> bs[i] != bs[j])
    }
  }

  // ----- the header block

  function HeaderCount(h: Block): Word {
    WordAt(h, 0)
  }

  function Targets(h: Block): (bs: seq<nat>)
    requires HeaderCount(h) <= LOGSIZE
    ensures |bs| == HeaderCount(h)
  {
    seq(HeaderCount(h), i requires 0 <= i < LOGSIZE => WordAt(h, 1 + i))
  }

  /** The header after the loop of write_head has stored its first k entries. */
  function PutEntries(h: Block, bs: seq<nat>, k: nat): (r: Block)
    requires k <= |bs| <= LOGSIZE && forall i :: 0 <= i < |bs| ==> bs[i] < WORD_MOD
  {
    if k == 0 then SetWord(h, 0, |bs|) else SetWord(PutEntries(h, bs, k - 1), k, bs[k - 1])
  }

  function PutHeader(h: Block, bs: seq<nat>): Block
    requires |bs| <= LOGSIZE && forall i :: 0 <= i < |bs| ==> bs[i] < WORD_MOD
  {
    PutEntries(h, bs, |bs|)
  }

  lemma {:induction false} EntriesStored(h: Block, bs: seq<nat>, k: nat, j: nat)
    requires k <= |bs| <= LOGSIZE && j < WORDS && forall i :: 0 <= i < |bs| ==> bs[i] < WORD_MOD
    ensures WordAt(PutEntries(h, bs, k), j) ==
            if j == 0 then |bs| else if j <= k then bs[j - 1] else WordAt(h, j)
  {
    if k == 0 {
      WordStored(h, 0, |bs|, j);
    } else {
      EntriesStored(h, bs, k - 1, j);
      WordStored(PutEntries(h, bs, k - 1), k, bs[k - 1], j);
    }
  }

  /** write_head then read_head gives back the list of logged blocks. */
  lemma HeaderRoundTrip(h: Block, bs: seq<nat>)
    requires |bs| <= LOGSIZE && forall i :: 0 <= i < |bs| ==> bs[i] < WORD_MOD
    ensures HeaderCount(PutHeader(h, bs)) == |bs|
    ensures Targets(PutHeader(h, bs)) == bs
  {
    var h' := PutHeader(h, bs);
    EntriesStored(h, bs, |bs|, 0);
    forall i | 0 <= i < |bs| ensures Targets(h')[i] == bs[i] {
      EntriesStored(h, bs, |bs|, i + 1);
    }
  }

  // ----- block writes

  /** The disk after writing cs[0] to bs[0], ..., cs[k-1] to bs[k-1], in that order. */
  function Patch(d: Disk, bs: seq<nat>, cs: seq<Block>, k: nat): (r: Disk)
    requires k <= |bs| == |cs| && forall i :: 0 <= i < |bs| ==> bs[i] < |d|
    ensures |r| == |d|
  {
    if k == 0 then d else Patch(d, bs, cs, k - 1)[bs[k - 1] := cs[k - 1]]
  }

  /** The disks after each of the first k of those writes. */
  ghost function PatchTrace(d: Disk, bs: seq<nat>, cs: seq<Block>, k: nat): (t: seq<Disk>)
    requires k <= |bs| == |cs| && forall i :: 0 <= i < |bs| ==> bs[i] < |d|
    ensures |t| == k && forall i :: 0 <= i < k ==> t[i] == Patch(d, bs, cs, i + 1)
  {
    if k == 0 then [] else PatchTrace(d, bs, cs, k - 1) + [Patch(d, bs, cs, k)]
  }

  lemma {:induction false} PatchMisses(d: Disk, bs: seq<nat>, cs: seq<Block>, k: nat, b: nat)
    requires k <= |bs| == |cs| && b < |d| && forall i :: 0 <= i < |bs| ==> bs[i] < |d|
    requires forall i :: 0 <= i < k ==> bs[i] != b
    ensures Patch(d, bs, cs, k)[b] == d[b]
  {
    if k > 0 {
      PatchMisses(d, bs, cs, k - 1, b);
    }
  }

  lemma {:induction false} PatchHits(d: Disk, bs: seq<nat>, cs: seq<Block>, k: nat, i: nat)
    requires i < k <= |bs| == |cs| && forall i :: 0 <= i < |bs| ==> bs[i] < |d|
    requires forall i, j :: 0 <= i < j < |bs| ==> bs[i] != bs[j]
    ensures Patch(d, bs, cs, k)[bs[i]] == cs[i]
  {
    if i < k - 1 {
      PatchHits(d, bs, cs, k - 1, i);
    }
  }

  function LogSlots(l: Layout, n: nat): (slots: seq<nat>)
    ensures |slots| == n
  {
    seq(n, (i: nat) => l.start + 1 + i)
  }

  function LogCopies(d: Disk, l: Layout, n: nat): (cs: seq<Block>)
    requires l.Fits(d) && n < l.size
    ensures |cs| == n
  {
    d[l.start + 1 .. l.start + 1 + n]
  }

  /** A disk whose log header a recovering kernel can follow. */
  ghost predicate Readable(d: Disk, l: Layout) {
    l.Fits(d) && HeaderCount(d[l.start]) <= LOGSIZE && l.Loggable(Targets(d[l.start]), d)
  }

  function HeaderWritten(d: Disk, l: Layout, bs: seq<nat>): (r: Disk)
    requires l.Fits(d) && |bs| <= LOGSIZE && forall i :: 0 <= i < |bs| ==> bs[i] < WORD_MOD
  {
    d[l.start := PutHeader(d[l.start], bs)]
  }

  /** The disk after each block write of recover_from_log(), in order. */
  ghost function RecoverTrace(d: Disk, l: Layout): (t: seq<Disk>)
    requires Readable(d, l)
    ensures |t| == HeaderCount(d[l.start]) + 1
  {
    var bs := Targets(d[l.start]);
    var cs := LogCopies(d, l, |bs|);
    PatchTrace(d, bs, cs, |bs|) + [HeaderWritten(Patch(d, bs, cs, |bs|), l, [])]
  }

  /** The disk with the log copies of cs in place, just before the commit record is written. */
  ghost function Prepared(d: Disk, l: Layout, cs: seq<Block>, k: nat): (r: Disk)
    requires l.Fits(d) && k <= |cs| < l.size
    ensures |r| == |d|
  {
    Patch(d, LogSlots(l, |cs|), cs, k)
  }

  /** The disk just after the header write that commits the transaction. */
  ghost function Committed(d: Disk, l: Layout, bs: seq<nat>, cs: seq<Block>): (r: Disk)
    requires l.Fits(d) && |bs| == |cs| && l.Loggable(bs, d)
    ensures |r| == |d|
  {
    HeaderWritten(Prepared(d, l, cs, |cs|), l, bs)
  }

  /** The disk after each block write of commit() up to and including the header write. */
  ghost function CommitTrace(d: Disk, l: Layout, bs: seq<nat>, cs: seq<Block>): (t: seq<Disk>)
    requires l.Fits(d) && |bs| == |cs| && l.Loggable(bs, d)
    ensures |t| == |bs| + 1
  {
    PatchTrace(d, LogSlots(l, |cs|), cs, |cs|) + [Committed(d, l, bs, cs)]
  }

  // ----- what recovery promises

  /** Contents of home block b after recovery from d: its log copy when the header names it. */
  ghost function Promised(d: Disk, l: Layout, b: nat): Block
    requires Readable(d, l) && b < |d|
  {
    var bs := Targets(d[l.start]);
    if i :| 0 <= i < |bs| && bs[i] == b then d[l.start + 1 + i] else d[b]
  }

  /** Two disks agree on every block outside the log. */
  ghost predicate SameHome(x: Disk, y: Disk, l: Layout) {
    |x| == |y| && forall b :: 0 <= b < |x| && !l.Holds(b) ==> x[b] == y[b]
  }

  ghost predicate SamePromise(x: Disk, y: Disk, l: Layout)
    requires Readable(x, l) && Readable(y, l)
  {
    |x| == |y| && forall b :: 0 <= b < |x| && !l.Holds(b) ==> Promised(x, l, b) == Promised(y, l, b)
  }

  /** Recovery from d ends with the home blocks of `home`. */
  ghost predicate Promises(d: Disk, l: Layout, home: Disk) {
    Readable(d, l) && |d| == |home| && forall b :: 0 <= b < |d| && !l.Holds(b) ==> Promised(d, l, b) == home[b]
  }

  lemma CopyOfNamedIsPromised(s: Disk, l: Layout, i: nat)
    requires Readable(s, l) && i < |Targets(s[l.start])|
    ensures Promised(s, l, Targets(s[l.start])[i]) == s[l.start + 1 + i]
  {
  }

  lemma UnnamedIsPromised(s: Disk, l: Layout, b: nat)
    requires Readable(s, l) && b < |s| && b !in Targets(s[l.start])
    ensures Promised(s, l, b) == s[b]
  {
  }

  lemma InstallKeepsLog(d: Disk, l: Layout, k: nat, b: nat)
    requires Readable(d, l) && k <= HeaderCount(d[l.start]) && b < |d| && l.Holds(b)
    ensures var bs := Targets(d[l.start]); Patch(d, bs, LogCopies(d, l, |bs|), k)[b] == d[b]
  {
    var bs := Targets(d[l.start]);
    PatchMisses(d, bs, LogCopies(d, l, |bs|), k, b);
  }

  lemma InstallKeepsPromiseAt(d: Disk, l: Layout, s: Disk, k: nat, b: nat)
    requires Readable(d, l) && k <= HeaderCount(d[l.start]) && b < |d| && !l.Holds(b)
    requires var bs := Targets(d[l.start]); s == Patch(d, bs, LogCopies(d, l, |bs|), k)
    requires Readable(s, l) && s[l.start] == d[l.start]
    ensures Promised(s, l, b) == Promised(d, l, b)
  {
    var bs := Targets(d[l.start]);
    if b in bs {
      var i :| 0 <= i < |bs| && bs[i] == b;
      CopyOfNamedIsPromised(d, l, i);
      CopyOfNamedIsPromised(s, l, i);
      InstallKeepsLog(d, l, k, l.start + 1 + i);
    } else {
      UnnamedIsPromised(d, l, b);
      UnnamedIsPromised(s, l, b);
      PatchMisses(d, bs, LogCopies(d, l, |bs|), k, b);
    }
  }

  /** Part-way through installing, the promise is the one made before the first install. */
  lemma InstallKeepsPromise(d: Disk, l: Layout, k: nat)
    requires Readable(d, l) && k <= HeaderCount(d[l.start])
    ensures var bs := Targets(d[l.start]); var s := Patch(d, bs, LogCopies(d, l, |bs|), k);
            Readable(s, l) && SamePromise(s, d, l)
  {
    var bs := Targets(d[l.start]);
    var s := Patch(d, bs, LogCopies(d, l, |bs|), k);
    InstallKeepsLog(d, l, k, l.start);
    assert Readable(s, l);
    forall b | 0 <= b < |d| && !l.Holds(b) ensures Promised(s, l, b) == Promised(d, l, b) {
      InstallKeepsPromiseAt(d, l, s, k, b);
    }
  }

  /** After the last install the home blocks themselves hold what was promised. */
  lemma InstallDelivers(d: Disk, l: Layout, b: nat)
    requires Readable(d, l) && b < |d| && !l.Holds(b)
    ensures var bs := Targets(d[l.start]); Patch(d, bs, LogCopies(d, l, |bs|), |bs|)[b] == Promised(d, l, b)
  {
    var bs := Targets(d[l.start]);
    var cs := LogCopies(d, l, |bs|);
    if b in bs {
      var i :| 0 <= i < |bs| && bs[i] == b;
      CopyOfNamedIsPromised(d, l, i);
      PatchHits(d, bs, cs, |bs|, i);
    } else {
      UnnamedIsPromised(d, l, b);
      PatchMisses(d, bs, cs, |bs|, b);
    }
  }

  /** With an empty header every home block is its own promise. */
  lemma EmptyHeaderPromises(d: Disk, l: Layout)
    requires l.Fits(d) && HeaderCount(d[l.start]) == 0
    ensures Promises(d, l, d)
  {
  }

  /** recover_from_log() run to the end: the header is empty and the home blocks are as promised. */
  lemma RecoveryDelivers(d: Disk, l: Layout)
    requires Readable(d, l)
    ensures var s := RecoverTrace(d, l)[|RecoverTrace(d, l)| - 1];
            && l.Fits(s) && HeaderCount(s[l.start]) == 0
            && |s| == |d|
            && forall b :: 0 <= b < |d| && !l.Holds(b) ==> s[b] == Promised(d, l, b)
  {
    var bs := Targets(d[l.start]);
    var p := Patch(d, bs, LogCopies(d, l, |bs|), |bs|);
    HeaderRoundTrip(p[l.start], []);
    forall b | 0 <= b < |d| && !l.Holds(b) ensures HeaderWritten(p, l, [])[b] == Promised(d, l, b) {
      InstallDelivers(d, l, b);
    }
  }

  /** Whichever write of recovery a crash follows, the next recovery promises the same. */
  lemma RecoveryKeepsPromise(d: Disk, l: Layout, i: nat)
    requires Readable(d, l) && i < |RecoverTrace(d, l)|
    ensures Readable(RecoverTrace(d, l)[i], l) && SamePromise(RecoverTrace(d, l)[i], d, l)
  {
    if i < |RecoverTrace(d, l)| - 1 {
      InstallKeepsPromise(d, l, i + 1);
    } else {
      RecoveryDelivers(d, l);
      EmptyHeaderPromises(RecoverTrace(d, l)[i], l);
    }
  }

  // ----- commit

  /** Log blocks written before the header change no promise: the old contents still stand. */
  lemma LogWritesKeepOld(d: Disk, l: Layout, cs: seq<Block>, k: nat)
    requires l.Fits(d) && HeaderCount(d[l.start]) == 0 && k <= |cs| < l.size
    ensures Promises(Prepared(d, l, cs, k), l, d)
  {
    var slots := LogSlots(l, |cs|);
    var s := Prepared(d, l, cs, k);
    forall b | 0 <= b < |d| && (b == l.start || !l.Holds(b)) ensures s[b] == d[b] {
      PatchMisses(d, slots, cs, k, b);
    }
    EmptyHeaderPromises(s, l);
  }

  /** A header naming bs, above log copies cs, promises cs at bs and nothing else. */
  lemma NamedCopiesArePromised(s: Disk, l: Layout, d: Disk, bs: seq<nat>, cs: seq<Block>)
    requires Readable(s, l) && |s| == |d| && Targets(s[l.start]) == bs && |bs| == |cs| && l.Loggable(bs, d)
    requires forall i :: 0 <= i < |cs| ==> s[l.start + 1 + i] == cs[i]
    requires SameHome(s, d, l)
    ensures Promises(s, l, Patch(d, bs, cs, |bs|))
  {
    forall b | 0 <= b < |d| && !l.Holds(b) ensures Promised(s, l, b) == Patch(d, bs, cs, |bs|)[b] {
      if b in bs {
        var i :| 0 <= i < |bs| && bs[i] == b;
        CopyOfNamedIsPromised(s, l, i);
        PatchHits(d, bs, cs, |bs|, i);
      } else {
        UnnamedIsPromised(s, l, b);
        PatchMisses(d, bs, cs, |bs|, b);
      }
    }
  }

  lemma CommittedDisk(d: Disk, l: Layout, bs: seq<nat>, cs: seq<Block>)
    requires l.Fits(d) && |bs| == |cs| && l.Loggable(bs, d)
    ensures var s := Committed(d, l, bs, cs);
            && Readable(s, l) && Targets(s[l.start]) == bs && SameHome(s, d, l)
            && forall i :: 0 <= i < |cs| ==> s[l.start + 1 + i] == cs[i]
  {
    var slots := LogSlots(l, |cs|);
    var p := Prepared(d, l, cs, |cs|);
    HeaderRoundTrip(p[l.start], bs);
    forall i | 0 <= i < |cs| ensures p[l.start + 1 + i] == cs[i] {
      PatchHits(d, slots, cs, |cs|, i);
    }
    forall b | 0 <= b < |d| && !l.Holds(b) ensures p[b] == d[b] {
      PatchMisses(d, slots, cs, |cs|, b);
    }
  }

  /** The header write switches every logged block to its new contents at once. */
  lemma HeaderWriteCommits(d: Disk, l: Layout, bs: seq<nat>, cs: seq<Block>)
    requires l.Fits(d) && |bs| == |cs| && l.Loggable(bs, d)
    ensures Promises(Committed(d, l, bs, cs), l, Patch(d, bs, cs, |bs|))
  {
    CommittedDisk(d, l, bs, cs);
    NamedCopiesArePromised(Committed(d, l, bs, cs), l, d, bs, cs);
  }

  /** After any write of commit() the disk promises all of the old blocks or all of the new ones,
      and it is the header write, the last one of the trace, that decides. */
  lemma CommitTraceIsAtomic(d: Disk, l: Layout, bs: seq<nat>, cs: seq<Block>, i: nat)
    requires l.Fits(d) && HeaderCount(d[l.start]) == 0 && |bs| == |cs| && l.Loggable(bs, d)
    requires i < |CommitTrace(d, l, bs, cs)|
    ensures Promises(CommitTrace(d, l, bs, cs)[i], l, if i < |bs| then d else Patch(d, bs, cs, |bs|))
  {
    if i < |bs| {
      LogWritesKeepOld(d, l, cs, i + 1);
    } else {
      HeaderWriteCommits(d, l, bs, cs);
    }
  }

  /** The disk after each block write of commit(), installation and final header included. */
  ghost function WholeCommit(d: Disk, l: Layout, bs: seq<nat>, cs: seq<Block>): (t: seq<Disk>)
    requires l.Fits(d) && |bs| == |cs| && l.Loggable(bs, d)
    ensures |t| == 2 * |bs| + 2
  {
    CommittedDisk(d, l, bs, cs);
    CommitTrace(d, l, bs, cs) + RecoverTrace(Committed(d, l, bs, cs), l)
  }

  /** No logged block reaches its home location before the header naming it is on disk. */
  lemma HomeWaitsForHeader(d: Disk, l: Layout, bs: seq<nat>, cs: seq<Block>, i: nat)
    requires l.Fits(d) && |bs| == |cs| && l.Loggable(bs, d) && i <= |bs|
    ensures SameHome(WholeCommit(d, l, bs, cs)[i], d, l)
    ensures i == |bs| ==> HeaderCount(WholeCommit(d, l, bs, cs)[i][l.start]) == |bs|
  {
    CommittedDisk(d, l, bs, cs);
    if i < |bs| {
      forall b | 0 <= b < |d| && !l.Holds(b) ensures Prepared(d, l, cs, i + 1)[b] == d[b] {
        PatchMisses(d, LogSlots(l, |cs|), cs, i + 1, b);
      }
    }
  }

  lemma WholeCommitIsAtomic(d: Disk, l: Layout, bs: seq<nat>, cs: seq<Block>, i: nat)
    requires l.Fits(d) && HeaderCount(d[l.start]) == 0 && |bs| == |cs| && l.Loggable(bs, d)
    requires i < |WholeCommit(d, l, bs, cs)|
    ensures Promises(WholeCommit(d, l, bs, cs)[i], l, if i < |bs| then d else Patch(d, bs, cs, |bs|))
  {
    CommittedDisk(d, l, bs, cs);
    if i <= |bs| {
      CommitTraceIsAtomic(d, l, bs, cs, i);
    } else {
      HeaderWriteCommits(d, l, bs, cs);
      RecoveryKeepsPromise(Committed(d, l, bs, cs), l, i - |bs| - 1);
    }
  }

  // ----- any number of crashes

  /** ds[0] is the disk found at boot; each later state is left by a crash of the recovery that
      started from the one before, either before its first write or after any of its writes. */
  ghost predicate CrashRun(ds: seq<Disk>, l: Layout) {
    && |ds| > 0
    && forall i :: 0 <= i < |ds| - 1 && Readable(ds[i], l) ==>
      ds[i + 1] == ds[i] || ds[i + 1] in RecoverTrace(ds[i], l)
  }

  lemma {:induction false} CrashesKeepPromise(ds: seq<Disk>, l: Layout)
    requires CrashRun(ds, l) && Readable(ds[0], l)
    ensures Readable(ds[|ds| - 1], l) && SamePromise(ds[|ds| - 1], ds[0], l)
  {
    if |ds| > 1 {
      var prior := ds[..|ds| - 1];
      CrashesKeepPromise(prior, l);
      var d := prior[|prior| - 1];
      assert ds[|ds| - 2] == d && (ds[|ds| - 2 + 1] == d || ds[|ds| - 1] in RecoverTrace(d, l));
      if i :| 0 <= i < |RecoverTrace(d, l)| && ds[|ds| - 1] == RecoverTrace(d, l)[i] {
        RecoveryKeepsPromise(d, l, i);
      }
    }
  }

  /** A promise is kept through any number of crashes and delivered by the first full recovery. */
  lemma PromiseIsDelivered(ds: seq<Disk>, l: Layout, home: Disk)
    requires CrashRun(ds, l) && Promises(ds[0], l, home)
    ensures Readable(ds[|ds| - 1], l)
    ensures var t := RecoverTrace(ds[|ds| - 1], l); SameHome(t[|t| - 1], home, l)
  {
    CrashesKeepPromise(ds, l);
    RecoveryDelivers(ds[|ds| - 1], l);
  }

  /** Crash atomicity. A transaction of distinct home blocks commits from disk d. The machine stops
      after `crash` of the writes of commit(), recovery is itself cut short any number of times, and
      then runs to the end: the home blocks are all old when the header naming them had not been
      written, all new when it had. */
  lemma CrashAtomicity(d: Disk, l: Layout, bs: seq<nat>, cs: seq<Block>, crash: nat, ds: seq<Disk>)
    requires l.Fits(d) && HeaderCount(d[l.start]) == 0 && |bs| == |cs| && l.Loggable(bs, d)
    requires CrashRun(ds, l)
    requires crash <= |WholeCommit(d, l, bs, cs)|
    requires ds[0] == if crash == 0 then d else WholeCommit(d, l, bs, cs)[crash - 1]
    ensures Readable(ds[|ds| - 1], l)
    ensures var t := RecoverTrace(ds[|ds| - 1], l);
            SameHome(t[|t| - 1], if crash <= |bs| then d else Patch(d, bs, cs, |bs|), l)
  {
    hide Promised, Patch, RecoverTrace;
    if crash == 0 {
      EmptyHeaderPromises(d, l);
    } else {
      WholeCommitIsAtomic(d, l, bs, cs, crash - 1);
    }
    PromiseIsDelivered(ds, l, if crash <= |bs| then d else Patch(d, bs, cs, |bs|));
  }
}
