/** Applying a list of relocations to an image in place: what the relative, dynamic
    and PLT passes of src/relocation/dynamic.rs have in common.

    Offsets are indexes into the image's memory. Each entry has an action; the
    actions themselves are chosen in module DynamicLink. */
module RelocPass {
  import opened Words

  /** What one entry does: write bytes at its offset, nothing, add the load bias to
      the word there, copy from the image itself, or stop the link. `dep` is the scope
      library that was used. */
  datatype Act =
    | Write(bytes: seq<byte>, dep: Option<nat>)
    | Nothing(dep: Option<nat>)
    | AddBase
    | CopyOwn(from: nat, len: nat, dep: Option<nat>)
    | Reject
    | Crash
  {
    function Width(): nat {
      match this
      case Write(b, _) => |b|
      case AddBase => 8
      case CopyOwn(_, n, _) => n
      case _ => 0
    }

    function Dep(): Option<nat> {
      match this
      case Write(_, d) => d
      case Nothing(d) => d
      case CopyOwn(_, _, d) => d
      case _ => None
    }
  }

  datatype Work = Work(off: nat, act: Act)

  datatype Image = Image(m: seq<byte>, flags: seq<bool>)

  datatype Outcome = Ok(img: Image) | Err | Panic

  predicate Room(img: Image, w: Work) {
    && w.off + w.act.Width() <= |img.m|
    && (w.act.CopyOwn? ==> w.act.from + w.act.len <= |img.m|)
  }

  function Flag(flags: seq<bool>, dep: Option<nat>): (r: seq<bool>)
    requires dep.Some? ==> dep.value < |flags|
    ensures |r| == |flags|
  {
    if dep.Some? then flags[dep.value := true] else flags
  }

  /** The memory after one entry. */
  function Touched(base: u64, m: seq<byte>, w: Work): (r: seq<byte>)
    requires w.off + w.act.Width() <= |m| && (w.act.CopyOwn? ==> w.act.from + w.act.len <= |m|)
    ensures |r| == |m|
  {
    match w.act
    case Write(b, _) => Put(m, w.off, b)
    case AddBase => Store(m, w.off, Wrap64(Load(m, w.off, 8) + base), 8)
    case CopyOwn(from, n, _) => Put(m, w.off, m[from..from + n])
    case _ => m
  }

  /** One entry. An index outside the scope is a failed bounds check. */
  function Step(base: u64, img: Image, w: Work): Outcome
    requires Room(img, w)
  {
    if w.act.Dep().Some? && w.act.Dep().value >= |img.flags| then Panic
    else if w.act.Reject? then Err
    else if w.act.Crash? then Panic
    else Ok(Image(Touched(base, img.m, w), Flag(img.flags, w.act.Dep())))
  }

  // ------------------------------------------------------------------- the meaning

  /** One entry leads from the first memory to the second. */
  predicate Leads(base: u64, m: seq<byte>, w: Work, m': seq<byte>) {
    Room(Image(m, []), w) && m' == Touched(base, m, w)
  }

  /** The memories that the first `k` entries lead through. */
  ghost predicate IsTrace(base: u64, ms: seq<seq<byte>>, work: seq<Work>, k: nat) {
    && k <= |work| && |ms| == k + 1
    && forall i {:trigger LeadsAt(base, ms, work, i)} :: 0 <= i < k ==> LeadsAt(base, ms, work, i)
  }

  predicate LeadsAt(base: u64, ms: seq<seq<byte>>, work: seq<Work>, i: nat)
    requires i + 1 < |ms| && i < |work|
  {
    Leads(base, ms[i], work[i], ms[i + 1])
  }

  /** The first `k` entries lead from `m0` to `m`. */
  ghost predicate Reaches(base: u64, m0: seq<byte>, m: seq<byte>, work: seq<Work>, k: nat) {
    exists ms :: IsTrace(base, ms, work, k) && ms[0] == m0 && ms[k] == m
  }

  /** The entry's bytes are in place. (What a copy from the image itself holds depends on when
      it happens: see `OwnCopies`.) */
  ghost predicate Applied(base: u64, m0: seq<byte>, img: Image, w: Work) {
    && |img.m| == |m0| && Room(img, w)
    && (w.act.Write? ==> img.m[w.off..w.off + |w.act.bytes|] == w.act.bytes)
    && (w.act.AddBase? ==> Load(img.m, w.off, 8) == Wrap64(Load(m0, w.off, 8) + base))
    && (w.act.Dep().Some? ==> w.act.Dep().value < |img.flags| && img.flags[w.act.Dep().value])
    && !w.act.Reject? && !w.act.Crash?
  }

  predicate InField(w: Work, b: int) {
    w.off <= b < w.off + w.act.Width()
  }

  ghost predicate Separate(work: seq<Work>) {
    forall i, j :: 0 <= i < j < |work| ==>
      Disjoint(work[i].off, work[i].act.Width(), work[j].off, work[j].act.Width())
  }

  /** Only the fields of the first `k` entries have changed. */
  ghost predicate OnlyFields(m0: seq<byte>, m: seq<byte>, work: seq<Work>, k: nat)
    requires k <= |work|
  {
    && |m| == |m0|
    && forall b :: 0 <= b < |m| && m[b] != m0[b] ==> exists i :: 0 <= i < k && InField(work[i], b)
  }

  /** A library is flagged if it was flagged before or one of the entries used it. */
  ghost predicate FlagsFrom(flags0: seq<bool>, flags: seq<bool>, work: seq<Work>, k: nat)
    requires k <= |work|
  {
    && |flags| == |flags0|
    && (forall d :: 0 <= d < |flags| && flags0[d] ==> flags[d])
    && (forall d :: 0 <= d < |flags| && flags[d] && !flags0[d] ==>
          exists i :: 0 <= i < k && work[i].act.Dep() == Some(d))
  }

  /** The image after the first `k` entries. */
  ghost predicate Done(base: u64, img0: Image, img: Image, work: seq<Work>, k: nat) {
    && k <= |work|
    && (forall i :: 0 <= i < k ==> Applied(base, img0.m, img, work[i]))
    && Reaches(base, img0.m, img.m, work, k)
    && OnlyFields(img0.m, img.m, work, k)
    && FlagsFrom(img0.flags, img.flags, work, k)
  }

  // ------------------------------------------------------------------- steps keep it

  lemma UntouchedSlice(m0: seq<byte>, m: seq<byte>, work: seq<Work>, k: nat, off: nat, n: nat)
    requires k <= |work| && OnlyFields(m0, m, work, k) && off + n <= |m0|
    requires forall i :: 0 <= i < k ==> Disjoint(work[i].off, work[i].act.Width(), off, n)
    ensures m[off..off + n] == m0[off..off + n]
  {
    forall b | off <= b < off + n ensures m[b] == m0[b] {
      assert forall i :: 0 <= i < k ==> !InField(work[i], b);
    }
  }

  /** What one entry writes, if anything: bytes in its own field. */
  lemma StepWrites(base: u64, img: Image, w: Work) returns (bytes: seq<byte>)
    requires Room(img, w) && Step(base, img, w).Ok?
    ensures |bytes| == w.act.Width()
    ensures Step(base, img, w).img.m == Put(img.m, w.off, bytes)
    ensures w.act.Write? ==> bytes == w.act.bytes
    ensures w.act.AddBase? ==> bytes == LittleEndian(Wrap64(Load(img.m, w.off, 8) + base), 8)
  {
    match w.act
    case Write(b, _) => bytes := b;
    case Nothing(_) => bytes := []; assert Put(img.m, w.off, []) == img.m;
    case AddBase => bytes := LittleEndian(Wrap64(Load(img.m, w.off, 8) + base), 8);
    case CopyOwn(from, n, _) => bytes := img.m[from..from + n];
  }

  lemma AppliedStable(base: u64, m0: seq<byte>, img: Image, img': Image, w: Work, off: nat, bytes: seq<byte>)
    requires Applied(base, m0, img, w) && off + |bytes| <= |img.m| && img'.m == Put(img.m, off, bytes)
    requires Disjoint(w.off, w.act.Width(), off, |bytes|)
    requires |img'.flags| == |img.flags| && forall d :: 0 <= d < |img.flags| && img.flags[d] ==> img'.flags[d]
    ensures Applied(base, m0, img', w)
  {
    LoadPutElsewhere(img.m, off, bytes, w.off, w.act.Width());
  }

  lemma FlagsStep(flags0: seq<bool>, flags: seq<bool>, work: seq<Work>, k: nat)
    requires k < |work| && FlagsFrom(flags0, flags, work, k)
    requires work[k].act.Dep().Some? ==> work[k].act.Dep().value < |flags|
    ensures FlagsFrom(flags0, Flag(flags, work[k].act.Dep()), work, k + 1)
  {
    var flags' := Flag(flags, work[k].act.Dep());
    forall d | 0 <= d < |flags'| && flags'[d] && !flags0[d]
      ensures exists i :: 0 <= i < k + 1 && work[i].act.Dep() == Some(d)
    {
      if work[k].act.Dep() != Some(d) {
        assert flags[d];
      }
    }
  }

  lemma FieldsStep(m0: seq<byte>, m: seq<byte>, work: seq<Work>, k: nat, bytes: seq<byte>)
    requires k < |work| && OnlyFields(m0, m, work, k)
    requires |bytes| == work[k].act.Width() && work[k].off + |bytes| <= |m|
    ensures OnlyFields(m0, Put(m, work[k].off, bytes), work, k + 1)
  {
    var m' := Put(m, work[k].off, bytes);
    forall b | 0 <= b < |m'| && m'[b] != m0[b] ensures exists i :: 0 <= i < k + 1 && InField(work[i], b) {
      if !InField(work[k], b) {
        assert m[b] != m0[b];
      }
    }
  }

  lemma BaseAdded(base: u64, m0: seq<byte>, m: seq<byte>, off: nat)
    requires |m| == |m0| && off + 8 <= |m| && m[off..off + 8] == m0[off..off + 8]
    ensures Load(Put(m, off, LittleEndian(Wrap64(Load(m, off, 8) + base), 8)), off, 8) ==
            Wrap64(Load(m0, off, 8) + base)
  {
    var v := Wrap64(Load(m, off, 8) + base);
    LoadStored(m, off, v, 8);
    Pow256Values();
  }

  lemma PutThere(m: seq<byte>, off: nat, bytes: seq<byte>)
    requires off + |bytes| <= |m|
    ensures Put(m, off, bytes)[off..off + |bytes|] == bytes
  {
  }

  /** The new entry is applied to what the original image had in its field. */
  lemma AppliedNow(base: u64, img0: Image, img: Image, work: seq<Work>, k: nat, bytes: seq<byte>)
    requires k < |work| && OnlyFields(img0.m, img.m, work, k) && Separate(work)
    requires Room(img, work[k]) && Step(base, img, work[k]).Ok? && |bytes| == work[k].act.Width()
    requires Step(base, img, work[k]).img.m == Put(img.m, work[k].off, bytes)
    requires work[k].act.Write? ==> bytes == work[k].act.bytes
    requires work[k].act.AddBase? ==> bytes == LittleEndian(Wrap64(Load(img.m, work[k].off, 8) + base), 8)
    ensures Applied(base, img0.m, Step(base, img, work[k]).img, work[k])
  {
    var w := work[k];
    var img' := Step(base, img, w).img;
    PutThere(img.m, w.off, bytes);
    if w.act.AddBase? {
      UntouchedSlice(img0.m, img.m, work, k, w.off, 8);
      BaseAdded(base, img0.m, img.m, w.off);
    }
  }

  /** One entry keeps the pass right. */
  lemma StepKeepsDone(base: u64, img0: Image, img: Image, work: seq<Work>, k: nat)
    requires k < |work| && Done(base, img0, img, work, k) && Separate(work)
    requires Room(img, work[k]) && Step(base, img, work[k]).Ok?
    ensures Done(base, img0, Step(base, img, work[k]).img, work, k + 1)
  {
    var img' := Step(base, img, work[k]).img;
    ReachesNext(base, img0.m, img.m, img'.m, work, k);
    var bytes := StepWrites(base, img, work[k]);
    AppliedNow(base, img0, img, work, k, bytes);
    FieldsStep(img0.m, img.m, work, k, bytes);
    FlagsStep(img0.flags, img.flags, work, k);
    forall i | 0 <= i < k ensures Applied(base, img0.m, img', work[i]) {
      assert Applied(base, img0.m, img, work[i]);
      AppliedStable(base, img0.m, img, img', work[i], work[k].off, bytes);
    }
  }

  // ---------------------------------------------------------------------- own copies

  lemma ReachesNext(base: u64, m0: seq<byte>, m: seq<byte>, m': seq<byte>, work: seq<Work>, k: nat)
    requires k < |work| && Reaches(base, m0, m, work, k) && Leads(base, m, work[k], m')
    ensures Reaches(base, m0, m', work, k + 1)
  {
    var ms :| IsTrace(base, ms, work, k) && ms[0] == m0 && ms[k] == m;
    var ms' := ms + [m'];
    forall i | 0 <= i < k + 1 ensures LeadsAt(base, ms', work, i) {
      if i < k {
        assert LeadsAt(base, ms, work, i);
      }
    }
    assert IsTrace(base, ms', work, k + 1);
  }

  lemma ReachesNone(base: u64, m: seq<byte>, work: seq<Work>)
    ensures Reaches(base, m, m, work, 0)
  {
    assert IsTrace(base, [m], work, 0);
  }

  /** Entry `i`, a copy from the image itself, holds what was at its source when its turn came. */
  ghost predicate CopyHolds(base: u64, m0: seq<byte>, m: seq<byte>, work: seq<Work>, i: nat)
    requires i < |work| && work[i].act.CopyOwn?
  {
    exists at :: Reaches(base, m0, at, work, i) && CopiedFrom(at, m, work[i])
  }

  predicate CopiedFrom(at: seq<byte>, m: seq<byte>, w: Work)
    requires w.act.CopyOwn?
  {
    && w.off + w.act.len <= |m| && w.act.from + w.act.len <= |at|
    && m[w.off..w.off + w.act.len] == at[w.act.from..w.act.from + w.act.len]
  }

  ghost predicate OwnCopies(base: u64, m0: seq<byte>, m: seq<byte>, work: seq<Work>) {
    forall i :: 0 <= i < |work| && work[i].act.CopyOwn? ==> CopyHolds(base, m0, m, work, i)
  }

  /** One more entry leaves the fields of the others. */
  lemma LeadsElsewhere(base: u64, m: seq<byte>, w: Work, m': seq<byte>, off: nat, n: nat)
    requires Leads(base, m, w, m') && Disjoint(w.off, w.act.Width(), off, n) && off + n <= |m|
    ensures |m'| == |m| && m'[off..off + n] == m[off..off + n]
  {
    match w.act
    case Write(b, _) => LoadPutElsewhere(m, w.off, b, off, n);
    case AddBase => LoadPutElsewhere(m, w.off, LittleEndian(Wrap64(Load(m, w.off, 8) + base), 8), off, n);
    case CopyOwn(from, len, _) => LoadPutElsewhere(m, w.off, m[from..from + len], off, n);
    case _ =>
  }

  /** From entry `i` on, its field stays. */
  lemma {:induction false} TraceKeeps(base: u64, ms: seq<seq<byte>>, work: seq<Work>, i: nat, k: nat)
    requires IsTrace(base, ms, work, |work|) && Separate(work) && i < k <= |work|
    requires work[i].off + work[i].act.Width() <= |ms[i + 1]|
    ensures var off, n := work[i].off, work[i].act.Width();
            |ms[k]| == |ms[i + 1]| && ms[k][off..off + n] == ms[i + 1][off..off + n]
  {
    if i + 1 < k {
      TraceKeeps(base, ms, work, i, k - 1);
      assert LeadsAt(base, ms, work, k - 1);
      LeadsElsewhere(base, ms[k - 1], work[k - 1], ms[k], work[i].off, work[i].act.Width());
    }
  }

  lemma TracePrefix(base: u64, ms: seq<seq<byte>>, work: seq<Work>, i: nat)
    requires IsTrace(base, ms, work, |work|) && i <= |work|
    ensures Reaches(base, ms[0], ms[i], work, i)
  {
    var front := ms[..i + 1];
    forall j | 0 <= j < i ensures LeadsAt(base, front, work, j) {
      assert LeadsAt(base, ms, work, j);
    }
    assert IsTrace(base, front, work, i) && front[0] == ms[0] && front[i] == ms[i];
  }

  lemma CopyLeads(base: u64, m: seq<byte>, w: Work, m': seq<byte>)
    requires Leads(base, m, w, m') && w.act.CopyOwn?
    ensures CopiedFrom(m, m', w)
  {
    assert Put(m, w.off, m[w.act.from..w.act.from + w.act.len])[w.off..w.off + w.act.len] ==
           m[w.act.from..w.act.from + w.act.len];
  }

  /** After the run every copy holds what was at its source when its turn came. */
  lemma CopiesDone(base: u64, m0: seq<byte>, m: seq<byte>, work: seq<Work>)
    requires Reaches(base, m0, m, work, |work|) && Separate(work)
    ensures OwnCopies(base, m0, m, work)
  {
    var ms :| IsTrace(base, ms, work, |work|) && ms[0] == m0 && ms[|work|] == m;
    forall i | 0 <= i < |work| && work[i].act.CopyOwn? ensures CopyHolds(base, m0, m, work, i) {
      assert LeadsAt(base, ms, work, i);
      CopyLeads(base, ms[i], work[i], ms[i + 1]);
      TraceKeeps(base, ms, work, i, |work|);
      TracePrefix(base, ms, work, i);
    }
  }

  /** The memory at step `k` depends on the entries before it only. */
  lemma {:induction false} TracesAgree(base: u64, ms: seq<seq<byte>>, ms': seq<seq<byte>>, work: seq<Work>,
                                       work': seq<Work>, k: nat, i: nat)
    requires IsTrace(base, ms, work, k) && IsTrace(base, ms', work', k) && ms[0] == ms'[0] && i <= k
    requires forall j :: 0 <= j < k ==> work[j] == work'[j]
    ensures ms[i] == ms'[i]
  {
    if i > 0 {
      TracesAgree(base, ms, ms', work, work', k, i - 1);
      assert LeadsAt(base, ms, work, i - 1) && LeadsAt(base, ms', work', i - 1);
    }
  }

  lemma ReachesOne(base: u64, m0: seq<byte>, m: seq<byte>, m': seq<byte>, work: seq<Work>, work': seq<Work>, k: nat)
    requires Reaches(base, m0, m, work, k) && Reaches(base, m0, m', work', k)
    requires k <= |work| && k <= |work'| && forall j :: 0 <= j < k ==> work[j] == work'[j]
    ensures m == m'
  {
    var ms :| IsTrace(base, ms, work, k) && ms[0] == m0 && ms[k] == m;
    var ms' :| IsTrace(base, ms', work', k) && ms'[0] == m0 && ms'[k] == m';
    TracesAgree(base, ms, ms', work, work', k, k);
  }

  // ------------------------------------------------------------------ in the memory

  datatype Status = Success | Failure | Panicked

  /** How the run goes on after an entry, in a scope of `n` libraries. */
  function Verdict(w: Work, n: nat): Status {
    if w.act.Dep().Some? && w.act.Dep().value >= n then Panicked
    else if w.act.Reject? then Failure
    else if w.act.Crash? then Panicked
    else Success
  }

  ghost function Now(mem: array<byte>, flags: array<bool>): Image
    reads mem, flags
  {
    Image(mem[..], flags[..])
  }

  method Touch(base: u64, w: Work, mem: array<byte>)
    requires w.off + w.act.Width() <= mem.Length && (w.act.CopyOwn? ==> w.act.from + w.act.len <= mem.Length)
    modifies mem
    ensures mem[..] == Touched(base, old(mem[..]), w)
  {
    match w.act {
      case Write(b, _) => WriteBytes(mem, w.off, b);
      case AddBase =>
        var v := FromLittleEndian(mem[..][w.off..w.off + 8]);
        WriteBytes(mem, w.off, LittleEndian(Wrap64(v + base), 8));
      case CopyOwn(from, n, _) =>
        WriteBytes(mem, w.off, mem[..][from..from + n]);
      case _ =>
    }
  }

  method SetFlag(flags: array<bool>, dep: Option<nat>)
    requires dep.Some? ==> dep.value < flags.Length
    modifies flags
    ensures flags[..] == Flag(old(flags[..]), dep)
  {
    if dep.Some? {
      flags[dep.value] := true;
    }
  }

  /** One entry, in place. An entry that stops the run changes nothing. */
  method Perform(base: u64, w: Work, mem: array<byte>, flags: array<bool>) returns (s: Status)
    requires Room(Now(mem, flags), w)
    modifies mem, flags
    ensures s == Verdict(w, flags.Length)
    ensures s.Success? ==> Step(base, old(Now(mem, flags)), w) == Ok(Now(mem, flags))
    ensures !s.Success? ==> Now(mem, flags) == old(Now(mem, flags))
  {
    s := Verdict(w, flags.Length);
    if s.Success? {
      Touch(base, w, mem);
      SetFlag(flags, w.act.Dep());
    }
  }

  /** A stretch `lo..hi` of the entries ran to its end, or up to the entry that
      stopped it. */
  ghost predicate Reached(base: u64, img0: Image, img: Image, work: seq<Work>, lo: nat, hi: nat, s: Status) {
    if s.Success? then Done(base, img0, img, work, hi)
    else exists k :: lo <= k < hi && k < |work| && Done(base, img0, img, work, k) && s == Verdict(work[k], |img.flags|)
  }

  ghost predicate AllRoom(img: Image, work: seq<Work>) {
    forall i :: 0 <= i < |work| ==> Room(img, work[i])
  }

  /** Entry `k` of the run. */
  method PerformNext(base: u64, ghost img0: Image, ghost work: seq<Work>, ghost k: nat, w: Work,
                     mem: array<byte>, flags: array<bool>) returns (s: Status)
    requires k < |work| && w == work[k] && Separate(work) && AllRoom(img0, work)
    requires Done(base, img0, Now(mem, flags), work, k)
    modifies mem, flags
    ensures Reached(base, img0, Now(mem, flags), work, k, k + 1, s)
  {
    ghost var before := Now(mem, flags);
    assert Room(img0, w);
    s := Perform(base, w, mem, flags);
    if s.Success? {
      StepKeepsDone(base, img0, before, work, k);
    }
  }

  lemma EmptyDone(base: u64, img: Image, work: seq<Work>)
    ensures Done(base, img, img, work, 0)
  {
    ReachesNone(base, img.m, work);
  }
}
