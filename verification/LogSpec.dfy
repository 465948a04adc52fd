/**
  What the redo log of kern/fs/log.c means for a disk image: the images that
  recovery writes, in order, and the image it ends with.
 */
module LogSpec {
  import opened Bytes
  import opened BufCache

  const LOGSIZE: nat := 10
  const ROOTDEV: int := 1

  type Block = b: seq<byte> | |b| == BSIZE witness seq(BSIZE, _ => 0)
  type Image = Disk<Block>

  /** The log area: the header at `start`, then `size - 1` log blocks. */
  datatype Area = Area(start: nat, size: nat)

  function At(s: nat): Loc { Loc(ROOTDEV, s) }

  ghost predicate Formatted(g: Area, d: Image) {
    g.size >= 1 && forall s :: 0 <= s < g.start + g.size ==> At(s) in d
  }

  ghost predicate Home(g: Area, s: nat) { s < g.start }

  /** The sectors a header block names, as read_head loads them. */
  ghost function HeadCount(hb: Block): nat { GetU32(hb, 0) }

  ghost function HeadSectors(hb: Block): (ss: seq<nat>)
    requires HeadCount(hb) <= LOGSIZE
    ensures |ss| == HeadCount(hb)
  {
    GetWords(hb, 4, HeadCount(hb))
  }

  /** The header block after write_head, which leaves the bytes behind the last entry alone. */
  function WithHead(hb: Block, ss: seq<word>): (r: Block)
    requires |ss| <= LOGSIZE
  {
    PutWords(hb, 0, [|ss|] + ss)
  }

  lemma HeadRoundTrip(hb: Block, ss: seq<word>)
    requires |ss| <= LOGSIZE
    ensures HeadCount(WithHead(hb, ss)) == |ss| && HeadSectors(WithHead(hb, ss)) == ss
  {
    var r, ws := WithHead(hb, ss), [|ss| as word] + ss;
    assert GetU32(r, 0 + 4 * 0) == ws[0];
    forall i | 0 <= i < |ss| ensures GetU32(r, 4 + 4 * i) == ss[i] {
      assert GetU32(r, 0 + 4 * (i + 1)) == ws[i + 1];
    }
  }

  /** Clearing the log again changes nothing more. */
  lemma EraseTwice(hb: Block)
    ensures WithHead(WithHead(hb, []), []) == WithHead(hb, [])
  {
    var once := WithHead(hb, []);
    var none: seq<word> := [];
    assert [|none| as word] + none == [0 as word];
    assert PutWords(hb, 0, [0]) == PutU32(PutWords(hb, 0, []), 0, 0);
    assert PutWords(once, 0, [0]) == PutU32(PutWords(once, 0, []), 0, 0);
  }

  ghost predicate InstallOk(g: Area, d: Image, ss: seq<nat>) {
    Formatted(g, d) && |ss| < g.size && forall i :: 0 <= i < |ss| ==> Home(g, ss[i])
  }

  /** An image whose log recovery can read: its header fits the log and names sectors outside it. */
  ghost predicate LogOk(g: Area, d: Image) {
    && Formatted(g, d)
    && HeadCount(d[At(g.start)]) <= LOGSIZE
    && InstallOk(g, d, HeadSectors(d[At(g.start)]))
  }

  /** The image after the first `k` iterations of install_trans. */
  ghost function Installed(g: Area, d: Image, ss: seq<nat>, k: nat): (r: Image)
    requires InstallOk(g, d, ss) && k <= |ss|
    ensures r.Keys == d.Keys
  {
    if k == 0 then d else Installed(g, d, ss, k - 1)[At(ss[k - 1]) := d[At(g.start + k)]]
  }

  /** The images that `k` iterations of install_trans leave on disk, one after the other. */
  ghost function InstallTrace(g: Area, d: Image, ss: seq<nat>, k: nat): (t: seq<Image>)
    requires InstallOk(g, d, ss) && k <= |ss|
    ensures |t| == k
  {
    if k == 0 then [] else InstallTrace(g, d, ss, k - 1) + [Installed(g, d, ss, k)]
  }

  lemma {:induction false} InstallTraceAt(g: Area, d: Image, ss: seq<nat>, k: nat, i: nat)
    requires InstallOk(g, d, ss) && i < k <= |ss|
    ensures InstallTrace(g, d, ss, k)[i] == Installed(g, d, ss, i + 1)
  {
    hide Installed;
    if i < k - 1 {
      InstallTraceAt(g, d, ss, k - 1, i);
    }
  }

  /** Installation rewrites home sectors only. */
  lemma {:induction false} InstalledFrame(g: Area, d: Image, ss: seq<nat>, k: nat, l: Loc)
    requires InstallOk(g, d, ss) && k <= |ss| && l in d
    requires forall i :: 0 <= i < k ==> l != At(ss[i])
    ensures Installed(g, d, ss, k)[l] == d[l]
  {
    if k > 0 {
      InstalledFrame(g, d, ss, k - 1, l);
    }
  }

  /** The last entry for a sector wins. */
  lemma {:induction false} InstalledLast(g: Area, d: Image, ss: seq<nat>, k: nat, i: nat)
    requires InstallOk(g, d, ss) && i < k <= |ss|
    requires forall j :: i < j < k ==> ss[j] != ss[i]
    ensures Installed(g, d, ss, k)[At(ss[i])] == d[At(g.start + 1 + i)]
  {
    if i < k - 1 {
      InstalledLast(g, d, ss, k - 1, i);
    }
  }

  lemma {:induction false} LastEntry(ss: seq<nat>, k: nat, s: nat) returns (i: nat)
    requires k <= |ss| && s in ss[..k]
    ensures i < k && ss[i] == s && forall j :: i < j < k ==> ss[j] != s
  {
    if ss[k - 1] == s {
      i := k - 1;
    } else {
      i := LastEntry(ss, k - 1, s);
    }
  }

  /** Starting installation over after any interruption gives the same image. */
  lemma Reinstalled(g: Area, d: Image, ss: seq<nat>, k: nat)
    requires InstallOk(g, d, ss) && k <= |ss|
    ensures InstallOk(g, Installed(g, d, ss, k), ss)
    ensures Installed(g, Installed(g, d, ss, k), ss, |ss|) == Installed(g, d, ss, |ss|)
  {
    hide Installed;
    var n, e := |ss|, Installed(g, d, ss, k);
    forall l | l in d ensures Installed(g, e, ss, n)[l] == Installed(g, d, ss, n)[l] {
      if l.dev == ROOTDEV && l.sector in ss[..n] {
        var i := LastEntry(ss, n, l.sector);
        InstalledLast(g, d, ss, n, i);
        InstalledLast(g, e, ss, n, i);
        InstalledFrame(g, d, ss, k, At(g.start + 1 + i));
      } else {
        forall i | 0 <= i < n ensures l != At(ss[i]) {
          assert ss[i] in ss[..n];
        }
        InstalledFrame(g, d, ss, n, l);
        InstalledFrame(g, e, ss, n, l);
        InstalledFrame(g, d, ss, k, l);
      }
    }
  }

  /** The image a complete recover_from_log leaves. */
  ghost function Recovered(g: Area, d: Image): (r: Image)
    requires LogOk(g, d)
    ensures r.Keys == d.Keys
  {
    var hb := d[At(g.start)];
    var ss := HeadSectors(hb);
    Installed(g, d, ss, |ss|)[At(g.start) := WithHead(hb, [])]
  }

  ghost function RecoverySteps(g: Area, d: Image): (n: nat)
    requires LogOk(g, d)
  {
    HeadCount(d[At(g.start)]) + 1
  }

  /** The image after the first `k` sector writes of recover_from_log. */
  ghost function RecoveryImage(g: Area, d: Image, k: nat): (r: Image)
    requires LogOk(g, d) && k <= RecoverySteps(g, d)
    ensures r.Keys == d.Keys
  {
    if k == RecoverySteps(g, d) then Recovered(g, d)
    else Installed(g, d, HeadSectors(d[At(g.start)]), k)
  }

  /** The images recover_from_log leaves on disk, one after the other. */
  ghost function RecoveryTrace(g: Area, d: Image): (t: seq<Image>)
    requires LogOk(g, d)
    ensures |t| == RecoverySteps(g, d)
  {
    var ss := HeadSectors(d[At(g.start)]);
    InstallTrace(g, d, ss, |ss|) + [Recovered(g, d)]
  }

  lemma RecoveryTraceAt(g: Area, d: Image, k: nat)
    requires LogOk(g, d) && k < RecoverySteps(g, d)
    ensures RecoveryTrace(g, d)[k] == RecoveryImage(g, d, k + 1)
  {
    var ss := HeadSectors(d[At(g.start)]);
    if k < |ss| {
      InstallTraceAt(g, d, ss, |ss|, k);
    }
  }

  /**
    Recovery is idempotent: after a crash at any point inside recover_from_log, a
    complete recovery gives the same disk as an uninterrupted one.
   */
  lemma RecoveryRestarts(g: Area, d: Image, k: nat)
    requires LogOk(g, d) && k <= RecoverySteps(g, d)
    ensures LogOk(g, RecoveryImage(g, d, k))
    ensures Recovered(g, RecoveryImage(g, d, k)) == Recovered(g, d)
  {
    hide HeadSectors, HeadCount, WithHead, Installed;
    var ss := HeadSectors(d[At(g.start)]);
    if k <= |ss| {
      InstalledFrame(g, d, ss, k, At(g.start));
      Reinstalled(g, d, ss, k);
    } else {
      RecoveredTwice(g, d);
    }
  }

  /** Recovery with an empty log changes nothing. */
  lemma RecoveredTwice(g: Area, d: Image)
    requires LogOk(g, d)
    ensures LogOk(g, Recovered(g, d)) && Recovered(g, Recovered(g, d)) == Recovered(g, d)
  {
    hide HeadSectors, HeadCount, WithHead;
    var hb, e := d[At(g.start)], Recovered(g, d);
    HeadRoundTrip(hb, []);
    EraseTwice(hb);
    assert Recovered(g, e) == e[At(g.start) := WithHead(WithHead(hb, []), [])];
  }

  /** The disk after recoveries that crashed, in turn, after `ks[0]`, `ks[1]`, ... sector writes. */
  ghost function Interrupted(g: Area, d: Image, ks: seq<nat>): (r: Image)
    requires LogOk(g, d)
    ensures LogOk(g, r)
    decreases |ks|
  {
    if ks == [] || ks[0] > RecoverySteps(g, d) then d
    else
      RecoveryRestarts(g, d, ks[0]);
      Interrupted(g, RecoveryImage(g, d, ks[0]), ks[1..])
  }

  /** Any number of crashes during recovery, then one complete recovery. */
  lemma {:induction false} RecoveryIsIdempotent(g: Area, d: Image, ks: seq<nat>)
    requires LogOk(g, d)
    ensures Recovered(g, Interrupted(g, d, ks)) == Recovered(g, d)
    ensures HeadCount(Recovered(g, Interrupted(g, d, ks))[At(g.start)]) == 0
    decreases |ks|
  {
    HeadRoundTrip(d[At(g.start)], []);
    if ks != [] && ks[0] <= RecoverySteps(g, d) {
      RecoveryRestarts(g, d, ks[0]);
      RecoveryIsIdempotent(g, RecoveryImage(g, d, ks[0]), ks[1..]);
    }
  }

  /** The sectors outside the log. */
  ghost function HomeOf(g: Area, d: Image): (h: map<nat, Block>)
    requires Formatted(g, d)
  {
    map s | 0 <= s < g.start :: d[At(s)]
  }

  /** What the file system finds after a crash that left `d`. */
  ghost function AfterCrash(g: Area, d: Image): (h: map<nat, Block>)
    requires LogOk(g, d)
  {
    HomeOf(g, Recovered(g, d))
  }

  /**
    Recovery word by word: the header's first word is the number of log blocks, the words after it are where
    they belong, the log blocks follow the header, and the last one for a sector wins.
   */
  lemma RecoveredWord(g: Area, d: Image, i: nat)
    requires LogOk(g, d) && i < GetU32(d[At(g.start)], 0) <= 10
    requires forall j :: i < j < GetU32(d[At(g.start)], 0) ==>
               GetU32(d[At(g.start)], 4 + 4 * j) != GetU32(d[At(g.start)], 4 + 4 * i)
    ensures var s := GetU32(d[At(g.start)], 4 + 4 * i);
            && s < g.start && s in AfterCrash(g, d) && At(g.start + 1 + i) in d
            && AfterCrash(g, d)[s] == d[At(g.start + 1 + i)]
  {
    hide Installed, WithHead;
    var ss := HeadSectors(d[At(g.start)]);
    InstalledLast(g, d, ss, |ss|, i);
  }

  /** A sector that the header does not name stays as it is, and the header is empty afterwards. */
  lemma RecoveredRest(g: Area, d: Image, s: nat)
    requires LogOk(g, d) && s < g.start && GetU32(d[At(g.start)], 0) <= 10
    requires forall j :: 0 <= j < GetU32(d[At(g.start)], 0) ==> GetU32(d[At(g.start)], 4 + 4 * j) != s
    ensures s in AfterCrash(g, d) && AfterCrash(g, d)[s] == d[At(s)]
    ensures GetU32(Recovered(g, d)[At(g.start)], 0) == 0
  {
    hide Installed, WithHead;
    var hb := d[At(g.start)];
    var ss := HeadSectors(hb);
    HeadRoundTrip(hb, []);
    InstalledFrame(g, d, ss, |ss|, At(s));
  }

  /** A crash that leaves `d` is repaired to `home`. */
  ghost predicate Recovers(g: Area, d: Image, home: map<nat, Block>) {
    LogOk(g, d) && AfterCrash(g, d) == home
  }

  /** A recovery installs the logged sectors and clears the header last. */
  lemma RecoveryPlan(g: Area, d: Image, ss: seq<nat>)
    requires LogOk(g, d) && ss == HeadSectors(d[At(g.start)])
    ensures InstallOk(g, d, ss) && At(g.start) in d
    ensures var e := Installed(g, d, ss, |ss|);
            e[At(g.start) := WithHead(e[At(g.start)], [])] == Recovered(g, d)
    ensures RecoveryTrace(g, d) == InstallTrace(g, d, ss, |ss|) + [Recovered(g, d)]
  {
    InstalledFrame(g, d, ss, |ss|, At(g.start));
  }

  /** Without a commit record recovery changes nothing outside the log. */
  lemma NothingCommitted(g: Area, d: Image)
    requires Formatted(g, d) && HeadCount(d[At(g.start)]) == 0
    ensures LogOk(g, d) && AfterCrash(g, d) == HomeOf(g, d)
  {
  }

  /** The image right after the header write of commit_trans. */
  ghost function CommitRecord(g: Area, d: Image, ss: seq<word>): (r: Image)
    requires Formatted(g, d) && |ss| <= LOGSIZE
  {
    d[At(g.start) := WithHead(d[At(g.start)], ss)]
  }

  /** `home` with sector `ss[i]` holding log block `i`. */
  ghost predicate Applied(g: Area, d: Image, ss: seq<nat>, home: map<nat, Block>, result: map<nat, Block>)
    requires Formatted(g, d) && |ss| < g.size
  {
    && result.Keys == home.Keys
    && (forall i :: 0 <= i < |ss| ==> ss[i] in result && result[ss[i]] == d[At(g.start + 1 + i)])
    && (forall s :: s in home && s !in ss ==> result[s] == home[s])
  }

  /** Once the header is on disk, every later crash recovers to the whole transaction. */
  lemma CommittedImage(g: Area, d: Image, ss: seq<word>, result: map<nat, Block>, k: nat)
    requires InstallOk(g, d, ss) && |ss| <= LOGSIZE
    requires Applied(g, d, ss, HomeOf(g, d), result)
    ensures var h := CommitRecord(g, d, ss);
            && LogOk(g, h) && RecoverySteps(g, h) == |ss| + 1
            && (k <= |ss| + 1 ==> LogOk(g, RecoveryImage(g, h, k)) && AfterCrash(g, RecoveryImage(g, h, k)) == result)
  {
    var h := CommitRecord(g, d, ss);
    HeadRoundTrip(d[At(g.start)], ss);
    assert InstallOk(g, h, ss);
    if k <= |ss| + 1 {
      RecoveryRestarts(g, h, k);
      CommittedHome(g, d, ss, result);
    }
  }

  lemma CommittedHome(g: Area, d: Image, ss: seq<word>, result: map<nat, Block>)
    requires InstallOk(g, d, ss) && |ss| <= LOGSIZE
    requires Applied(g, d, ss, HomeOf(g, d), result)
    ensures var h := CommitRecord(g, d, ss); LogOk(g, h) && AfterCrash(g, h) == result
  {
    var h := CommitRecord(g, d, ss);
    CommitRecordIs(g, d, ss, result);
    AppliedKeys(g, h, ss, HomeOf(g, h), result);
    assert forall s: nat :: s in HomeOf(g, h) <==> s < g.start;
    hide HeadSectors, HeadCount, WithHead, CommitRecord, Installed, Applied, HomeOf, LogOk, Recovered;
    forall s: nat | s < g.start ensures Recovered(g, h)[At(s)] == result[s] {
      RecoveredSector(g, h, result, s);
    }
    HomeIs(g, Recovered(g, h), result);
  }

  /** Every sector outside the log holds its old or its new contents. */
  ghost predicate OldOrNew(g: Area, d: Image, v: map<nat, Block>, w: map<nat, Block>) {
    && Formatted(g, d)
    && forall s: nat :: s < g.start ==> s in v && s in w && (d[At(s)] == v[s] || d[At(s)] == w[s])
  }

  lemma InstalledOldOrNew(g: Area, d: Image, ss: seq<nat>, result: map<nat, Block>, k: nat, s: nat)
    requires InstallOk(g, d, ss) && k <= |ss| && s < g.start
    requires forall i :: 0 <= i < |ss| ==> ss[i] in result && result[ss[i]] == d[At(g.start + 1 + i)]
    ensures Installed(g, d, ss, k)[At(s)] == d[At(s)] || (s in result && Installed(g, d, ss, k)[At(s)] == result[s])
  {
    hide Installed;
    if s in ss[..k] {
      var i := LastEntry(ss, k, s);
      InstalledLast(g, d, ss, k, i);
    } else {
      forall i | 0 <= i < k ensures At(s) != At(ss[i]) {
        assert ss[i] in ss[..k];
      }
      InstalledFrame(g, d, ss, k, At(s));
    }
  }

  lemma RecoveryOldOrNew(g: Area, d: Image, result: map<nat, Block>, k: nat, s: nat)
    requires LogOk(g, d) && k <= RecoverySteps(g, d) && s < g.start
    requires Applied(g, d, HeadSectors(d[At(g.start)]), HomeOf(g, d), result)
    ensures var e := RecoveryImage(g, d, k); e[At(s)] == d[At(s)] || (s in result && e[At(s)] == result[s])
  {
    hide Installed, HeadSectors, WithHead, HomeOf;
    var ss := HeadSectors(d[At(g.start)]);
    InstalledOldOrNew(g, d, ss, result, if k <= |ss| then k else |ss|, s);
  }

  /** The commit record changes nothing outside the log, and names the logged sectors. */
  lemma CommitRecordIs(g: Area, d: Image, ss: seq<word>, result: map<nat, Block>)
    requires InstallOk(g, d, ss) && |ss| <= LOGSIZE && Applied(g, d, ss, HomeOf(g, d), result)
    ensures var h := CommitRecord(g, d, ss);
            && LogOk(g, h) && HeadSectors(h[At(g.start)]) == ss && HomeOf(g, h) == HomeOf(g, d)
            && Applied(g, h, ss, HomeOf(g, h), result)
  {
    hide HeadSectors, HeadCount, WithHead, HomeOf, Applied, CommitRecord;
    CommitHead(g, d, ss);
    CommitKeepsHome(g, d, ss);
    CommitApplied(g, d, ss, HomeOf(g, d), result);
  }

  lemma CommitHead(g: Area, d: Image, ss: seq<word>)
    requires InstallOk(g, d, ss) && |ss| <= LOGSIZE
    ensures var h := CommitRecord(g, d, ss); LogOk(g, h) && HeadSectors(h[At(g.start)]) == ss
  {
    HeadRoundTrip(d[At(g.start)], ss);
    hide HeadSectors, HeadCount, WithHead;
  }

  lemma CommitKeepsHome(g: Area, d: Image, ss: seq<word>)
    requires InstallOk(g, d, ss) && |ss| <= LOGSIZE
    ensures var h := CommitRecord(g, d, ss); Formatted(g, h) && HomeOf(g, h) == HomeOf(g, d)
  {
    hide WithHead;
    HomeIs(g, CommitRecord(g, d, ss), HomeOf(g, d));
  }

  lemma CommitApplied(g: Area, d: Image, ss: seq<word>, home: map<nat, Block>, result: map<nat, Block>)
    requires InstallOk(g, d, ss) && |ss| <= LOGSIZE && Applied(g, d, ss, home, result)
    ensures var h := CommitRecord(g, d, ss); Formatted(g, h) && Applied(g, h, ss, home, result)
  {
    hide WithHead;
  }

  /** The images from the commit record on hold no third version of any sector. */
  lemma CommittedOldOrNew(g: Area, d: Image, ss: seq<word>, result: map<nat, Block>, k: nat)
    requires InstallOk(g, d, ss) && |ss| <= LOGSIZE && k <= |ss| + 1
    requires Applied(g, d, ss, HomeOf(g, d), result)
    ensures var h := CommitRecord(g, d, ss);
            && LogOk(g, h) && RecoverySteps(g, h) == |ss| + 1
            && OldOrNew(g, RecoveryImage(g, h, k), HomeOf(g, d), result)
  {
    hide CommitRecord, HeadSectors, RecoveryImage, Applied;
    var h := CommitRecord(g, d, ss);
    CommitRecordIs(g, d, ss, result);
    AppliedKeys(g, d, ss, HomeOf(g, d), result);
    forall s: nat | s < g.start
      ensures RecoveryImage(g, h, k)[At(s)] == h[At(s)] || RecoveryImage(g, h, k)[At(s)] == result[s] {
      RecoveryOldOrNew(g, h, result, k, s);
    }
    assert forall s: nat :: s < g.start ==> HomeOf(g, h)[s] == h[At(s)];
  }

  lemma AppliedKeys(g: Area, d: Image, ss: seq<nat>, home: map<nat, Block>, result: map<nat, Block>)
    requires Formatted(g, d) && |ss| < g.size && Applied(g, d, ss, home, result)
    ensures result.Keys == home.Keys
  {
  }

  lemma HomeIs(g: Area, d: Image, home: map<nat, Block>)
    requires Formatted(g, d)
    requires forall s: nat :: s in home <==> s < g.start
    requires forall s: nat :: s < g.start ==> d[At(s)] == home[s]
    ensures HomeOf(g, d) == home
  {
  }

  lemma RecoveredSector(g: Area, h: Image, result: map<nat, Block>, s: nat)
    requires LogOk(g, h) && Applied(g, h, HeadSectors(h[At(g.start)]), HomeOf(g, h), result) && s < g.start
    ensures At(s) in h && s in result && Recovered(g, h)[At(s)] == result[s]
  {
    hide HeadSectors, HeadCount, WithHead, Installed;
    var ss := HeadSectors(h[At(g.start)]);
    assert s in HomeOf(g, h) && HomeOf(g, h)[s] == h[At(s)];
    CommittedSector(g, h, ss, result, s);
  }

  lemma CommittedSector(g: Area, h: Image, ss: seq<nat>, result: map<nat, Block>, s: nat)
    requires InstallOk(g, h, ss) && s < g.start && (s !in ss ==> s in result && result[s] == h[At(s)])
    requires forall i :: 0 <= i < |ss| ==> ss[i] in result && result[ss[i]] == h[At(g.start + 1 + i)]
    ensures s in result && Installed(g, h, ss, |ss|)[At(s)] == result[s]
  {
    hide Installed;
    if s in ss {
      assert ss[..|ss|] == ss;
      var i := LastEntry(ss, |ss|, s);
      InstalledLast(g, h, ss, |ss|, i);
    } else {
      InstalledFrame(g, h, ss, |ss|, At(s));
    }
  }
}
