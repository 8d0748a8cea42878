// Swup_Execute: the host side of a software update. It asks the device for
// its information, decides where the update starts, sends the four manifest
// chunks and the package's component segments, and finishes the update,
// stopping at the first reply that leaves the device in the wrong state.
//
// The device is a parameter: `reply(k)` is the status word and SWUP status
// the device answers to the k-th command sent. The commands a run sends are
// determined by the replies to the earlier ones, so every device behaviour is
// some such function.
module SwupUpdate {
  import opened Bytes
  import opened SwupApi

  /** What Swup_TransferComponent and its siblings read back. */
  datatype Reply = Reply(error: u32, status: u32)

  /** The SWUP commands Swup_Execute sends, with the package bytes each
      transfer carries. */
  datatype Command =
    | ClearRamManifest
    | TransferManifest(index: u8, chunk: seq<u8>)
    | StartUpdate
    | TransferComponent(component: u8, segment: u16, chunk: seq<u8>)
    | VerifyAll
    | FinishUpdate

  /** The status returned and the commands sent, in order. */
  datatype Outcome = Outcome(error: u32, sent: seq<Command>)

  /** Old NXP-internal parts number their component segments from 1,
      production parts from 0. */
  function StartingSegment(swupVersion: seq<u8>): (s: u16)
    requires |swupVersion| == 8
    ensures s == 1 <==> swupVersion[4] < 40 && swupVersion[6] == 0x04
    ensures s == 0 || s == 1
  {
    if swupVersion[4] < 40 && swupVersion[6] == 0x04 then 1 else 0
  }

  /** The key-version check against byte 6 of the type-check id: the
      engineering key updates only 0x0B and 0x0C parts, the production key
      only 'S' parts, and any other key version every part. */
  predicate KeyAccepted(key: u32, typeCheckId: seq<u8>)
    requires |typeCheckId| == 8
  {
    if key == KEY_VERSION_ENG_Z20_05 then typeCheckId[6] == 0x0B || typeCheckId[6] == 0x0C
    else if key == KEY_VERSION_PROD_A20_06 then typeCheckId[6] == 0x53
    else true
  }

  /** The number of whole component segments after the manifest. */
  function ComponentCount(size: u32): (n: nat)
    requires size >= TRANSFER_MANIFEST_SIZE
    ensures TRANSFER_COMPONENT_0_OFFSET + n * TRANSFER_COMPONENT_SEGMENT_SIZE <= size
    ensures size < TRANSFER_COMPONENT_0_OFFSET + (n + 1) * TRANSFER_COMPONENT_SEGMENT_SIZE
  {
    (size - TRANSFER_MANIFEST_SIZE) / TRANSFER_CHUNK_SIZE
  }

  /** `noOfComponents` as Swup_Execute computes it, in 32-bit unsigned
      arithmetic. */
  function ComponentCountAsWritten(size: u32): nat
  {
    ((size - TRANSFER_MANIFEST_SIZE) % 0x1_0000_0000) / TRANSFER_CHUNK_SIZE
  }

  /** For a package that holds its manifest the count as written is the
      number of whole segments; for a shorter one the subtraction wraps and
      the bound of the segment loop lies beyond every value its 16-bit
      counter can take, so the loop reads past the package for as long as
      the device stays in TRANSFER. */
  lemma ComponentCountWraps(size: u32, start: u16)
    requires start <= 1
    ensures size >= TRANSFER_MANIFEST_SIZE ==> ComponentCountAsWritten(size) == ComponentCount(size)
    ensures size < TRANSFER_MANIFEST_SIZE ==> ComponentCountAsWritten(size) + start > 0xFFFF
  {
  }

  /** What Swup_Execute needs of its package: it holds `size` bytes, starting
      with the manifest, and its segments can be numbered by a 16-bit
      counter that starts at 0 or 1. */
  predicate PackageFits(pkg: seq<u8>, size: u32)
  {
    |pkg| == size && size >= TRANSFER_MANIFEST_SIZE && ComponentCount(size) < 0xFFFF
  }

  /** The manifest chunks: chunk i is the 128 bytes at offset i * 128. */
  function ManifestCommands(pkg: seq<u8>): (cs: seq<Command>)
    requires |pkg| >= TRANSFER_MANIFEST_SIZE
    ensures |cs| == TRANSFER_MANIFEST_SIZE / TRANSFER_CHUNK_SIZE
    ensures forall i | 0 <= i < |cs| :: cs[i].TransferManifest? && cs[i].index == i
  {
    seq(TRANSFER_MANIFEST_SIZE / TRANSFER_CHUNK_SIZE, (i: int) requires 0 <= i < 4 =>
      TransferManifest(i, pkg[TRANSFER_MANIFEST_OFFSET + i * TRANSFER_MANIFEST_SEGMENT_SIZE
                              ..TRANSFER_MANIFEST_OFFSET + i * TRANSFER_MANIFEST_SEGMENT_SIZE + TRANSFER_MANIFEST_SEGMENT_SIZE]))
  }

  /** The component segments, numbered from `start`; segment s is read at
      offset 512 + (s - start) * 128. Every segment belongs to component 0. */
  function ComponentCommands(pkg: seq<u8>, n: nat, start: u16): (cs: seq<Command>)
    requires TRANSFER_COMPONENT_0_OFFSET + n * TRANSFER_COMPONENT_SEGMENT_SIZE <= |pkg|
    requires start + n <= 0x1_0000
    ensures |cs| == n
    ensures forall j | 0 <= j < n :: cs[j].TransferComponent? && cs[j].component == 0 && cs[j].segment == start + j
  {
    seq(n, (j: int) requires 0 <= j < n =>
      SegmentBounds(n, j, |pkg|);
      TransferComponent(0, start + j, pkg[TRANSFER_COMPONENT_0_OFFSET + j * TRANSFER_COMPONENT_SEGMENT_SIZE
                                          ..TRANSFER_COMPONENT_0_OFFSET + j * TRANSFER_COMPONENT_SEGMENT_SIZE
                                            + TRANSFER_COMPONENT_SEGMENT_SIZE]))
  }

  /** Segment j of n lies inside a package that holds all n. */
  lemma SegmentBounds(n: nat, j: nat, len: nat)
    requires j < n && TRANSFER_COMPONENT_0_OFFSET + n * TRANSFER_COMPONENT_SEGMENT_SIZE <= len
    ensures TRANSFER_COMPONENT_0_OFFSET + j * TRANSFER_COMPONENT_SEGMENT_SIZE + TRANSFER_COMPONENT_SEGMENT_SIZE <= len
  {
  }

  /** The j-th component command. */
  lemma ComponentAt(pkg: seq<u8>, n: nat, start: u16, j: nat)
    requires TRANSFER_COMPONENT_0_OFFSET + n * TRANSFER_COMPONENT_SEGMENT_SIZE <= |pkg|
    requires start + n <= 0x1_0000 && j < n
    ensures TRANSFER_COMPONENT_0_OFFSET + j * TRANSFER_COMPONENT_SEGMENT_SIZE + TRANSFER_COMPONENT_SEGMENT_SIZE <= |pkg|
    ensures ComponentCommands(pkg, n, start)[j]
            == TransferComponent(0, start + j, pkg[TRANSFER_COMPONENT_0_OFFSET + j * TRANSFER_COMPONENT_SEGMENT_SIZE
                                                  ..TRANSFER_COMPONENT_0_OFFSET + j * TRANSFER_COMPONENT_SEGMENT_SIZE
                                                    + TRANSFER_COMPONENT_SEGMENT_SIZE])
  {
    SegmentBounds(n, j, |pkg|);
  }

  /** Everything a run sends when every reply is the expected one: from
      ACTIVE the manifest is cleared, transferred and the update started;
      from TRANSFER the run resumes at the component segments. */
  function Plan(entry: u32, pkg: seq<u8>, size: u32, start: u16): seq<Command>
    requires PackageFits(pkg, size) && start <= 1
  {
    var comps := ComponentCommands(pkg, ComponentCount(size), start) + [VerifyAll, FinishUpdate];
    if entry == SWUP_STATUS_ACTIVE then [ClearRamManifest] + ManifestCommands(pkg) + [StartUpdate] + comps
    else comps
  }

  /** Where a plan's component segments start. */
  function PlanOffset(entry: u32): nat
  {
    if entry == SWUP_STATUS_ACTIVE then 6 else 0
  }

  /** The shape of a plan, command by command. */
  /** From command `off` on, `plan` holds the component segments, then
      VerifyAll and FinishUpdate. */
  ghost predicate TailPlanned(pkg: seq<u8>, size: u32, start: u16, plan: seq<Command>, off: nat)
  {
    && PackageFits(pkg, size) && start <= 1
    && |plan| == off + ComponentCount(size) + 2
    && SegmentsPlanned(pkg, ComponentCount(size), start, plan, off)
    && plan[off + ComponentCount(size)] == VerifyAll && plan[off + ComponentCount(size) + 1] == FinishUpdate
  }

  /** Commands off .. off + n - 1 of `plan` are the n component segments
      numbered from `start`. */
  ghost predicate SegmentsPlanned(pkg: seq<u8>, n: nat, start: u16, plan: seq<Command>, off: nat)
  {
    && TRANSFER_COMPONENT_0_OFFSET + n * TRANSFER_COMPONENT_SEGMENT_SIZE <= |pkg|
    && start + n < 0x1_0000 && |plan| > off + n
    && forall j | 0 <= j < n :: plan[off + j] == ComponentCommands(pkg, n, start)[j]
  }

  /** Command off + j of a plan that holds the segments is segment start + j. */
  lemma SegmentPlanned(pkg: seq<u8>, n: nat, start: u16, plan: seq<Command>, off: nat, j: nat)
    requires SegmentsPlanned(pkg, n, start, plan, off) && j < n
    ensures TRANSFER_COMPONENT_0_OFFSET + j * TRANSFER_COMPONENT_SEGMENT_SIZE + TRANSFER_COMPONENT_SEGMENT_SIZE <= |pkg|
    ensures off + j < |plan|
    ensures plan[off + j]
            == TransferComponent(0, start + j, pkg[TRANSFER_COMPONENT_0_OFFSET + j * TRANSFER_COMPONENT_SEGMENT_SIZE
                                                 ..TRANSFER_COMPONENT_0_OFFSET + j * TRANSFER_COMPONENT_SEGMENT_SIZE
                                                   + TRANSFER_COMPONENT_SEGMENT_SIZE])
  {
    ComponentAt(pkg, n, start, j);
  }

  /** `plan` opens with ClearRamManifest, the four manifest chunks and
      StartUpdate. */
  ghost predicate ManifestPlanned(pkg: seq<u8>, plan: seq<Command>)
  {
    && |pkg| >= TRANSFER_MANIFEST_SIZE && |plan| > 6
    && plan[0] == ClearRamManifest && plan[5] == StartUpdate
    && forall i | 0 <= i < 4 :: plan[1 + i] == ManifestCommands(pkg)[i]
  }

  lemma PlanShape(entry: u32, pkg: seq<u8>, size: u32, start: u16)
    requires PackageFits(pkg, size) && start <= 1
    ensures TailPlanned(pkg, size, start, Plan(entry, pkg, size, start), PlanOffset(entry))
    ensures entry == SWUP_STATUS_ACTIVE ==> ManifestPlanned(pkg, Plan(entry, pkg, size, start))
    ensures var plan := Plan(entry, pkg, size, start); var off := PlanOffset(entry);
            var n := ComponentCount(size); var cs := ComponentCommands(pkg, n, start);
            |plan| == off + n + 2 &&
            (entry == SWUP_STATUS_ACTIVE ==>
               plan[0] == ClearRamManifest && plan[5] == StartUpdate &&
               forall i | 0 <= i < 4 :: plan[1 + i] == ManifestCommands(pkg)[i]) &&
            (forall j | 0 <= j < n :: plan[off + j] == cs[j]) &&
            plan[off + n] == VerifyAll && plan[off + n + 1] == FinishUpdate
  {
  }

  /** The replies that let a run go on after a command: success, with the
      device still ACTIVE while the manifest goes out and in TRANSFER after. */
  predicate Continues(c: Command, r: Reply)
  {
    r.error == STATUS_CMD_SUCCESS &&
    r.status == (if c.ClearRamManifest? || c.TransferManifest? then SWUP_STATUS_ACTIVE else SWUP_STATUS_TRANSFER)
  }

  /** The first k commands of `plan` were each answered by a reply that lets
      the run go on. */
  ghost predicate Accepted(plan: seq<Command>, reply: nat -> Reply, k: nat)
  {
    k <= |plan| && forall j | 0 <= j < k :: Continues(plan[j], reply(j))
  }

  /** One more accepted command. */
  lemma AcceptOne(plan: seq<Command>, reply: nat -> Reply, k: nat)
    requires Accepted(plan, reply, k) && k < |plan| && Continues(plan[k], reply(k))
    ensures Accepted(plan, reply, k + 1)
  {
  }

  /** Sending command k after the first k. */
  lemma SendOne<T>(plan: seq<T>, sent: seq<T>, k: nat)
    requires k < |plan| && sent == plan[..k]
    ensures sent + [plan[k]] == plan[..k + 1]
  {
  }

  /** The status a run returns when it stops after `c`: the device's status
      word, except that FinishUpdate's generic error means the device reset
      itself, as it does once the update is complete. */
  function StopError(c: Command, r: Reply): u32
  {
    if c.FinishUpdate? && r.error == STATUS_GENERIC_ERROR then STATUS_CMD_SUCCESS else r.error
  }

  /** Sending a plan from command i on: the run stops at the first command
      whose reply does not let it go on, or after the last. */
  function Drive(plan: seq<Command>, reply: nat -> Reply, i: nat): (o: Outcome)
    requires i < |plan|
    ensures i < |o.sent| <= |plan| && o.sent == plan[..|o.sent|]
    ensures forall j | i <= j < |o.sent| - 1 :: Continues(plan[j], reply(j))
    ensures |o.sent| < |plan| ==> !Continues(plan[|o.sent| - 1], reply(|o.sent| - 1))
    ensures o.error == StopError(plan[|o.sent| - 1], reply(|o.sent| - 1))
    decreases |plan| - i
  {
    if i == |plan| - 1 || !Continues(plan[i], reply(i)) then
      Outcome(StopError(plan[i], reply(i)), plan[..i + 1])
    else
      Drive(plan, reply, i + 1)
  }

  /** The run that passes commands 0..k-1 and stops at k. */
  lemma DriveStops(plan: seq<Command>, reply: nat -> Reply, k: nat)
    requires k < |plan| && Accepted(plan, reply, k)
    requires k == |plan| - 1 || !Continues(plan[k], reply(k))
    ensures Drive(plan, reply, 0) == Outcome(StopError(plan[k], reply(k)), plan[..k + 1])
  {
    var o := Drive(plan, reply, 0);
    assert |o.sent| == k + 1;
  }

  /** Swup_Execute as written, run to completion: the device-information
      reply, the key version and the package decide which plan is sent. */
  function ExecuteOutcome(pkg: seq<u8>, size: u32, key: u32, info: DeviceInfoReply, reply: nat -> Reply): Outcome
    requires PackageFits(pkg, size) && info.info.Valid()
  {
    var status := info.info.swupStatus;
    var start := StartingSegment(info.info.swupVersion);
    if info.error != STATUS_CMD_SUCCESS then Outcome(info.error, [])
    else if status == SWUP_STATUS_TRANSFER then Drive(Plan(status, pkg, size, start), reply, 0)
    else if status != SWUP_STATUS_ACTIVE || !KeyAccepted(key, info.info.typeCheckId) then
      Outcome(STATUS_CMD_SUCCESS, [])
    else Drive(Plan(status, pkg, size, start), reply, 0)
  }

  /** Swup_Execute, with the control flow of the C code: straight-line
      checks, a loop over the manifest chunks and a loop over the component
      segments, each leaving at the first reply that is not the expected one. */
  method Execute(pkg: seq<u8>, size: u32, key: u32, info: DeviceInfoReply, reply: nat -> Reply)
    returns (o: Outcome)
    requires PackageFits(pkg, size) && info.info.Valid()
    ensures o == ExecuteOutcome(pkg, size, key, info, reply)
  {
    var error := info.error;
    var swupStatus := info.info.swupStatus;
    if error != STATUS_CMD_SUCCESS {
      return Outcome(error, []);
    }
    var start := StartingSegment(info.info.swupVersion);
    ghost var plan := Plan(swupStatus, pkg, size, start);
    ghost var off := PlanOffset(swupStatus);
    PlanShape(swupStatus, pkg, size, start);
    var sent: seq<Command> := [];
    if swupStatus != SWUP_STATUS_TRANSFER {
      if swupStatus != SWUP_STATUS_ACTIVE {
        return Outcome(error, []);
      }
      if !KeyAccepted(key, info.info.typeCheckId) {
        return Outcome(error, []);
      }
      var stopped;
      stopped, o := SendManifest(pkg, plan, reply);
      if stopped {
        return o;
      }
      sent := o.sent;
    }
    o := TransferAndFinish(pkg, size, start, plan, off, sent, reply);
  }

  /** The i-th manifest command. */
  lemma ManifestAt(pkg: seq<u8>, i: nat)
    requires |pkg| >= TRANSFER_MANIFEST_SIZE && i < 4
    ensures ManifestCommands(pkg)[i]
            == TransferManifest(i, pkg[TRANSFER_MANIFEST_OFFSET + i * TRANSFER_MANIFEST_SEGMENT_SIZE
                                       ..TRANSFER_MANIFEST_OFFSET + i * TRANSFER_MANIFEST_SEGMENT_SIZE
                                         + TRANSFER_MANIFEST_SEGMENT_SIZE])
  {
  }

  /** From ACTIVE: clear the RAM manifest, transfer the four manifest chunks
      and start the update, leaving at the first reply that does not keep
      the device ACTIVE (or, for the start, move it to TRANSFER). Either the
      run stops here, or the first six commands of the plan were accepted. */
  method SendManifest(pkg: seq<u8>, ghost plan: seq<Command>, reply: nat -> Reply)
    returns (stopped: bool, o: Outcome)
    requires ManifestPlanned(pkg, plan)
    ensures stopped ==> o == Drive(plan, reply, 0)
    ensures !stopped ==> o.sent == plan[..6] && Accepted(plan, reply, 6)
  {
    var sent := [ClearRamManifest];
    var r := reply(|sent| - 1);
    var error, swupStatus := r.error, r.status;
    if error != STATUS_CMD_SUCCESS || swupStatus != SWUP_STATUS_ACTIVE {
      DriveStops(plan, reply, 0);
      return true, Outcome(error, sent);
    }
    var iChunk := 0;
    while iChunk < TRANSFER_MANIFEST_SIZE / TRANSFER_CHUNK_SIZE
      invariant 0 <= iChunk <= 4
      invariant sent == plan[..1 + iChunk]
      invariant Accepted(plan, reply, |sent|)
      invariant error == STATUS_CMD_SUCCESS && swupStatus == SWUP_STATUS_ACTIVE
    {
      if swupStatus == SWUP_STATUS_ACTIVE {
        sent, error, swupStatus := SendManifestChunk(pkg, plan, iChunk, sent, reply);
        if error != STATUS_CMD_SUCCESS || swupStatus != SWUP_STATUS_ACTIVE {
          return true, Outcome(error, sent);
        }
      }
      iChunk := iChunk + 1;
    }
    sent := sent + [StartUpdate];
    assert sent == plan[..6];
    r := reply(|sent| - 1);
    error, swupStatus := r.error, r.status;
    if error != STATUS_CMD_SUCCESS || swupStatus != SWUP_STATUS_TRANSFER {
      DriveStops(plan, reply, |sent| - 1);
      return true, Outcome(error, sent);
    }
    return false, Outcome(error, sent);
  }

  /** One pass of the manifest loop: chunk `iChunk` goes out and its reply
      is read. Either the reply keeps the device ACTIVE and one more command
      is accepted, or the run stops here. */
  method SendManifestChunk(pkg: seq<u8>, ghost plan: seq<Command>, iChunk: u8, sent0: seq<Command>, reply: nat -> Reply)
    returns (sent: seq<Command>, error: u32, swupStatus: u32)
    requires ManifestPlanned(pkg, plan) && iChunk < 4
    requires sent0 == plan[..1 + iChunk] && Accepted(plan, reply, |sent0|)
    ensures sent == plan[..|sent0| + 1]
    ensures error == reply(|sent0|).error && swupStatus == reply(|sent0|).status
    ensures error == STATUS_CMD_SUCCESS && swupStatus == SWUP_STATUS_ACTIVE ==> Accepted(plan, reply, |sent|)
    ensures error != STATUS_CMD_SUCCESS || swupStatus != SWUP_STATUS_ACTIVE ==>
              Drive(plan, reply, 0) == Outcome(error, sent)
  {
    var offset := TRANSFER_MANIFEST_OFFSET + iChunk as nat * TRANSFER_MANIFEST_SEGMENT_SIZE;
    ghost var k := 1 + iChunk as nat;
    ManifestAt(pkg, iChunk as nat);
    assert plan[k] == ManifestCommands(pkg)[iChunk];
    SendOne(plan, sent0, k);
    sent := sent0 + [TransferManifest(iChunk, pkg[offset..offset + TRANSFER_MANIFEST_SEGMENT_SIZE])];
    var r := reply(|sent| - 1);
    error, swupStatus := r.error, r.status;
    if error != STATUS_CMD_SUCCESS || swupStatus != SWUP_STATUS_ACTIVE {
      DriveStops(plan, reply, k);
    } else {
      AcceptOne(plan, reply, k);
    }
  }

  /** The doTransfer label of Swup_Execute onwards: the device is in
      TRANSFER and the first `off` commands of the plan have been accepted.
      The component segments go out, then VerifyAll, then FinishUpdate if
      the device is still in TRANSFER. */
  method TransferAndFinish(pkg: seq<u8>, size: u32, start: u16, ghost plan: seq<Command>, ghost off: nat,
                           sent0: seq<Command>, reply: nat -> Reply)
    returns (o: Outcome)
    requires TailPlanned(pkg, size, start, plan, off)
    requires sent0 == plan[..off]
    requires Accepted(plan, reply, off)
    ensures o == Drive(plan, reply, 0)
  {
    var noOfComponents := (size - TRANSFER_MANIFEST_SIZE) / TRANSFER_CHUNK_SIZE;
    var stopped;
    stopped, o := SendSegments(pkg, noOfComponents, start, plan, off, sent0, reply);
    if stopped {
      return;
    }
    o := VerifyAndFinish(plan, o.sent, reply);
  }

  /** The end of Swup_Execute: VerifyAll, then FinishUpdate if the device is
      still in TRANSFER; FinishUpdate's generic error means the device reset
      itself and counts as success. */
  method VerifyAndFinish(ghost plan: seq<Command>, sent0: seq<Command>, reply: nat -> Reply)
    returns (o: Outcome)
    requires |plan| >= 2 && sent0 == plan[..|plan| - 2] && Accepted(plan, reply, |sent0|)
    requires plan[|plan| - 2] == VerifyAll && plan[|plan| - 1] == FinishUpdate
    ensures o == Drive(plan, reply, 0)
  {
    ghost var k := |sent0|;
    SendOne(plan, sent0, k);
    var sent := sent0 + [VerifyAll];
    var r := reply(|sent| - 1);
    var error, swupStatus := r.error, r.status;
    if error != STATUS_CMD_SUCCESS {
      DriveStops(plan, reply, k);
      return Outcome(error, sent);
    }
    if swupStatus == SWUP_STATUS_TRANSFER {
      AcceptOne(plan, reply, k);
      SendOne(plan, sent, k + 1);
      sent := sent + [FinishUpdate];
      assert sent == plan;
      r := reply(|sent| - 1);
      error := r.error;
      if error != STATUS_CMD_SUCCESS {
        if error == STATUS_GENERIC_ERROR {
          error := STATUS_CMD_SUCCESS;
        } else {
          DriveStops(plan, reply, k + 1);
          return Outcome(error, sent);
        }
      }
      DriveStops(plan, reply, k + 1);
    } else {
      DriveStops(plan, reply, k);
    }
    o := Outcome(error, sent);
  }

  /** The segment loop: segments start .. start + n - 1, segment s read at
      offset 512 + (s - start) * 128, leaving at the first reply that does
      not keep the device in TRANSFER. */
  method SendSegments(pkg: seq<u8>, noOfComponents: nat, start: u16, ghost plan: seq<Command>, ghost off: nat,
                      sent0: seq<Command>, reply: nat -> Reply)
    returns (stopped: bool, o: Outcome)
    requires SegmentsPlanned(pkg, noOfComponents, start, plan, off)
    requires sent0 == plan[..off]
    requires Accepted(plan, reply, off)
    ensures stopped ==> o == Drive(plan, reply, 0)
    ensures !stopped ==> o.sent == plan[..off + noOfComponents] && Accepted(plan, reply, off + noOfComponents)
  {
    var sent := sent0;
    var swupStatus := SWUP_STATUS_TRANSFER;
    var componentIndex: u8 := 0;
    var segment := start;
    while segment < noOfComponents + start
      invariant start <= segment <= noOfComponents + start
      invariant sent == plan[..off + (segment - start)]
      invariant Accepted(plan, reply, |sent|)
      invariant swupStatus == SWUP_STATUS_TRANSFER
    {
      if swupStatus == SWUP_STATUS_TRANSFER {
        var error;
        sent, error, swupStatus := SendSegment(pkg, noOfComponents, start, plan, off, componentIndex, segment, sent, reply);
        if error != STATUS_CMD_SUCCESS || swupStatus != SWUP_STATUS_TRANSFER {
          return true, Outcome(error, sent);
        }
      }
      segment := segment + 1;
    }
    return false, Outcome(STATUS_CMD_SUCCESS, sent);
  }

  /** One pass of the segment loop: segment `segment` goes out and its reply
      is read. Either the reply keeps the device in TRANSFER and one more
      command is accepted, or the run stops here. */
  method SendSegment(pkg: seq<u8>, noOfComponents: nat, start: u16, ghost plan: seq<Command>, ghost off: nat,
                     componentIndex: u8, segment: u16, sent0: seq<Command>, reply: nat -> Reply)
    returns (sent: seq<Command>, error: u32, swupStatus: u32)
    requires SegmentsPlanned(pkg, noOfComponents, start, plan, off) && componentIndex == 0
    requires start <= segment < noOfComponents + start
    requires sent0 == plan[..off + (segment - start)] && Accepted(plan, reply, |sent0|)
    ensures sent == plan[..|sent0| + 1]
    ensures error == reply(|sent0|).error && swupStatus == reply(|sent0|).status
    ensures error == STATUS_CMD_SUCCESS && swupStatus == SWUP_STATUS_TRANSFER ==> Accepted(plan, reply, |sent|)
    ensures error != STATUS_CMD_SUCCESS || swupStatus != SWUP_STATUS_TRANSFER ==>
              Drive(plan, reply, 0) == Outcome(error, sent)
  {
    var index := TRANSFER_COMPONENT_0_OFFSET + (segment - start) * TRANSFER_COMPONENT_SEGMENT_SIZE;
    ghost var k := off + (segment - start);
    SegmentPlanned(pkg, noOfComponents, start, plan, off, segment - start);
    SendOne(plan, sent0, k);
    sent := sent0 + [TransferComponent(componentIndex, segment, pkg[index..index + TRANSFER_COMPONENT_SEGMENT_SIZE])];
    var r := reply(|sent| - 1);
    error, swupStatus := r.error, r.status;
    if error != STATUS_CMD_SUCCESS || swupStatus != SWUP_STATUS_TRANSFER {
      DriveStops(plan, reply, k);
    } else {
      AcceptOne(plan, reply, k);
    }
  }

  /** The package bytes a command carries. */
  function ChunkOf(c: Command): seq<u8>
  {
    match c
    case TransferManifest(_, chunk) => chunk
    case TransferComponent(_, _, chunk) => chunk
    case _ => []
  }

  /** The package bytes a sequence of commands carries, in order. */
  function Payload(cs: seq<Command>): seq<u8>
  {
    if cs == [] then [] else Payload(cs[..|cs| - 1]) + ChunkOf(cs[|cs| - 1])
  }

  lemma {:induction false} PayloadAppend(a: seq<Command>, b: seq<Command>)
    ensures Payload(a + b) == Payload(a) + Payload(b)
    decreases |b|
  {
    if b == [] {
      assert a + b == a;
    } else {
      var init, c := b[..|b| - 1], b[|b| - 1];
      assert (a + b)[..|a + b| - 1] == a + init;
      PayloadAppend(a, init);
      calc {
        Payload(a + b);
        Payload(a + init) + ChunkOf(c);
        (Payload(a) + Payload(init)) + ChunkOf(c);
        { ConcatAssoc(Payload(a), Payload(init), ChunkOf(c)); }
        Payload(a) + (Payload(init) + ChunkOf(c));
      }
    }
  }

  lemma SliceJoin<T>(s: seq<T>, a: nat, b: nat, c: nat)
    requires a <= b <= c <= |s|
    ensures s[a..b] + s[b..c] == s[a..c]
  {
  }

  lemma ConcatAssoc<T>(x: seq<T>, y: seq<T>, z: seq<T>)
    ensures (x + y) + z == x + (y + z)
  {
  }

  /** The first k manifest commands carry the first k * 128 package bytes. */
  lemma ManifestPayloadPrefix(pkg: seq<u8>, k: nat)
    requires |pkg| >= TRANSFER_MANIFEST_SIZE && k <= 4
    ensures Payload(ManifestCommands(pkg)[..k]) == pkg[..k * TRANSFER_MANIFEST_SEGMENT_SIZE]
  {
    var cs := ManifestCommands(pkg);
    forall i | 0 <= i < 4
      ensures CarriesChunk(pkg, cs, TRANSFER_MANIFEST_OFFSET, i)
    {
      ManifestAt(pkg, i);
    }
    ChunksPrefix(pkg, cs, TRANSFER_MANIFEST_OFFSET, k);
  }

  /** The first k segment commands carry the k * 128 bytes after the
      manifest. */
  lemma {:induction false} ComponentPayloadPrefix(pkg: seq<u8>, n: nat, start: u16, k: nat)
    requires TRANSFER_COMPONENT_0_OFFSET + n * TRANSFER_COMPONENT_SEGMENT_SIZE <= |pkg|
    requires start + n <= 0x1_0000 && k <= n
    ensures TRANSFER_COMPONENT_0_OFFSET + k * TRANSFER_COMPONENT_SEGMENT_SIZE <= |pkg|
    ensures Payload(ComponentCommands(pkg, n, start)[..k])
            == pkg[TRANSFER_COMPONENT_0_OFFSET..TRANSFER_COMPONENT_0_OFFSET + k * TRANSFER_COMPONENT_SEGMENT_SIZE]
  {
    var cs := ComponentCommands(pkg, n, start);
    forall j | 0 <= j < n
      ensures CarriesChunk(pkg, cs, TRANSFER_COMPONENT_0_OFFSET, j)
    {
      ComponentAt(pkg, n, start, j);
    }
    ChunksPrefix(pkg, cs, TRANSFER_COMPONENT_0_OFFSET, k);
  }

  /** Command j carries the j-th 128-byte chunk of the package counted from
      offset `base`. */
  ghost predicate CarriesChunk(pkg: seq<u8>, cs: seq<Command>, base: nat, j: nat)
    requires j < |cs|
  {
    base + j * TRANSFER_CHUNK_SIZE + TRANSFER_CHUNK_SIZE <= |pkg|
    && ChunkOf(cs[j]) == pkg[base + j * TRANSFER_CHUNK_SIZE..base + j * TRANSFER_CHUNK_SIZE + TRANSFER_CHUNK_SIZE]
  }

  /** Commands that each carry their chunk carry, together, the bytes from
      `base` on. */
  lemma {:induction false} ChunksPrefix(pkg: seq<u8>, cs: seq<Command>, base: nat, k: nat)
    requires base + |cs| * TRANSFER_CHUNK_SIZE <= |pkg| && k <= |cs|
    requires forall j | 0 <= j < |cs| :: CarriesChunk(pkg, cs, base, j)
    ensures base + k * TRANSFER_CHUNK_SIZE <= |pkg|
    ensures Payload(cs[..k]) == pkg[base..base + k * TRANSFER_CHUNK_SIZE]
  {
    ChunksWithin(|cs|, k, base, |pkg|);
    if k > 0 {
      ChunksPrefix(pkg, cs, base, k - 1);
      assert CarriesChunk(pkg, cs, base, k - 1);
      ChunkStep(pkg, cs, base, k);
    }
  }

  /** A command carrying chunk k - 1 extends the payload of the k - 1
      before it. */
  lemma ChunkStep(pkg: seq<u8>, cs: seq<Command>, base: nat, k: nat)
    requires 0 < k <= |cs| && base + k * TRANSFER_CHUNK_SIZE <= |pkg|
    requires Payload(cs[..k - 1]) == pkg[base..base + (k - 1) * TRANSFER_CHUNK_SIZE]
    requires ChunkOf(cs[k - 1])
             == pkg[base + (k - 1) * TRANSFER_CHUNK_SIZE..base + (k - 1) * TRANSFER_CHUNK_SIZE + TRANSFER_CHUNK_SIZE]
    ensures Payload(cs[..k]) == pkg[base..base + k * TRANSFER_CHUNK_SIZE]
  {
    PayloadLast(cs, k);
    var lo, hi := ChunkEnds(base, k);
    SliceJoin(pkg, base, lo, hi);
  }

  /** The last of the first k commands adds its chunk to the payload. */
  lemma PayloadLast(cs: seq<Command>, k: nat)
    requires 0 < k <= |cs|
    ensures Payload(cs[..k]) == Payload(cs[..k - 1]) + ChunkOf(cs[k - 1])
  {
    assert cs[..k][..k - 1] == cs[..k - 1];
  }

  /** The first k of n chunks lie inside a package that holds all n. */
  lemma ChunksWithin(n: nat, k: nat, base: nat, len: nat)
    requires k <= n && base + n * TRANSFER_CHUNK_SIZE <= len
    ensures base + k * TRANSFER_CHUNK_SIZE <= len
  {
  }

  /** Where chunk k - 1 begins and ends. */
  lemma ChunkEnds(base: nat, k: nat) returns (lo: nat, hi: nat)
    requires 0 < k
    ensures lo == base + (k - 1) * TRANSFER_CHUNK_SIZE
    ensures hi == lo + TRANSFER_CHUNK_SIZE == base + k * TRANSFER_CHUNK_SIZE
  {
    lo := base + (k - 1) * TRANSFER_CHUNK_SIZE;
    hi := lo + TRANSFER_CHUNK_SIZE;
  }

  /** The two commands that close every plan carry no package bytes. */
  lemma TailPayload()
    ensures Payload([VerifyAll, FinishUpdate]) == []
  {
    var tail := [VerifyAll, FinishUpdate];
    assert tail[..1] == [VerifyAll];
    assert [VerifyAll][..0] == [];
  }

  /** The segment commands and the closing pair carry the whole segments. */
  lemma SegmentsPayload(pkg: seq<u8>, n: nat, start: u16)
    requires TRANSFER_COMPONENT_0_OFFSET + n * TRANSFER_COMPONENT_SEGMENT_SIZE <= |pkg| && start + n <= 0x1_0000
    ensures Payload(ComponentCommands(pkg, n, start) + [VerifyAll, FinishUpdate])
            == pkg[TRANSFER_COMPONENT_0_OFFSET..TRANSFER_COMPONENT_0_OFFSET + n * TRANSFER_COMPONENT_SEGMENT_SIZE]
  {
    var cs := ComponentCommands(pkg, n, start);
    ComponentPayloadPrefix(pkg, n, start, n);
    assert cs[..n] == cs;
    PayloadWithTail(cs);
  }

  /** Appending the closing pair leaves the payload as it is. */
  lemma PayloadWithTail(cs: seq<Command>)
    ensures Payload(cs + [VerifyAll, FinishUpdate]) == Payload(cs)
  {
    TailPayload();
    PayloadAppend(cs, [VerifyAll, FinishUpdate]);
    assert Payload(cs) + [] == Payload(cs);
  }

  /** The opening six commands from ACTIVE carry the manifest. */
  lemma OpeningPayload(pkg: seq<u8>)
    requires |pkg| >= TRANSFER_MANIFEST_SIZE
    ensures Payload([ClearRamManifest] + ManifestCommands(pkg) + [StartUpdate]) == pkg[..TRANSFER_MANIFEST_SIZE]
  {
    var ms := ManifestCommands(pkg);
    ManifestPayload(pkg);
    SingleNoPayload(ClearRamManifest);
    SingleNoPayload(StartUpdate);
    PayloadAppend([ClearRamManifest], ms);
    PayloadAppend([ClearRamManifest] + ms, [StartUpdate]);
  }

  /** The four manifest commands carry the whole manifest. */
  lemma ManifestPayload(pkg: seq<u8>)
    requires |pkg| >= TRANSFER_MANIFEST_SIZE
    ensures Payload(ManifestCommands(pkg)) == pkg[..TRANSFER_MANIFEST_SIZE]
  {
    var ms := ManifestCommands(pkg);
    ManifestPayloadPrefix(pkg, 4);
    assert ms[..4] == ms;
  }

  /** A command without data carries nothing. */
  lemma SingleNoPayload(c: Command)
    requires ChunkOf(c) == []
    ensures Payload([c]) == []
  {
    assert [c][..0] == [];
  }

  /** A whole plan carries the manifest (when it starts from ACTIVE) and
      every whole segment after it, each byte once and in order. */
  lemma PlanPayload(entry: u32, pkg: seq<u8>, size: u32, start: u16)
    requires PackageFits(pkg, size) && start <= 1
    ensures var end := TRANSFER_COMPONENT_0_OFFSET + ComponentCount(size) * TRANSFER_COMPONENT_SEGMENT_SIZE;
            Payload(Plan(entry, pkg, size, start))
            == if entry == SWUP_STATUS_ACTIVE then pkg[..end] else pkg[TRANSFER_COMPONENT_0_OFFSET..end]
  {
    if entry == SWUP_STATUS_ACTIVE {
      ActivePlanPayload(pkg, ComponentCount(size), start);
    } else {
      SegmentsPayload(pkg, ComponentCount(size), start);
    }
  }

  /** From ACTIVE the plan carries the manifest and then the n segments. */
  lemma ActivePlanPayload(pkg: seq<u8>, n: nat, start: u16)
    requires TRANSFER_COMPONENT_0_OFFSET + n * TRANSFER_COMPONENT_SEGMENT_SIZE <= |pkg| && start + n <= 0x1_0000
    ensures Payload([ClearRamManifest] + ManifestCommands(pkg) + [StartUpdate]
                    + (ComponentCommands(pkg, n, start) + [VerifyAll, FinishUpdate]))
            == pkg[..TRANSFER_COMPONENT_0_OFFSET + n * TRANSFER_COMPONENT_SEGMENT_SIZE]
  {
    var end := TRANSFER_COMPONENT_0_OFFSET + n * TRANSFER_COMPONENT_SEGMENT_SIZE;
    var comps := ComponentCommands(pkg, n, start) + [VerifyAll, FinishUpdate];
    var opening := [ClearRamManifest] + ManifestCommands(pkg) + [StartUpdate];
    SegmentsPayload(pkg, n, start);
    OpeningPayload(pkg);
    PayloadAppend(opening, comps);
    assert pkg[..TRANSFER_MANIFEST_SIZE] + pkg[TRANSFER_COMPONENT_0_OFFSET..end] == pkg[..end];
  }

  /** FinishUpdate is the last command of a plan and appears nowhere else. */
  lemma FinishIsLast(entry: u32, pkg: seq<u8>, size: u32, start: u16)
    requires PackageFits(pkg, size) && start <= 1
    ensures var plan := Plan(entry, pkg, size, start);
            plan[|plan| - 1] == FinishUpdate && forall j | 0 <= j < |plan| - 1 :: !plan[j].FinishUpdate?
  {
    var plan := Plan(entry, pkg, size, start);
    var n := ComponentCount(size);
    var off := PlanOffset(entry);
    var cs := ComponentCommands(pkg, n, start);
    PlanShape(entry, pkg, size, start);
    forall j | 0 <= j < |plan| - 1
      ensures !plan[j].FinishUpdate?
    {
      if j >= off && j < off + n {
        assert plan[off + (j - off)] == cs[j - off];
      }
    }
  }

  /** Nothing is sent unless the device information was read and the device
      is ready: in TRANSFER, or ACTIVE and matching the key version. From
      ACTIVE the first command clears the RAM manifest; from TRANSFER the
      run resumes with the first segment (or with VerifyAll when the package
      has no segments). */
  lemma ExecuteGating(pkg: seq<u8>, size: u32, key: u32, info: DeviceInfoReply, reply: nat -> Reply)
    requires PackageFits(pkg, size) && info.info.Valid()
    ensures var o := ExecuteOutcome(pkg, size, key, info, reply); var st := info.info.swupStatus;
            (o.sent != [] <==>
               info.error == STATUS_CMD_SUCCESS &&
               (st == SWUP_STATUS_TRANSFER || (st == SWUP_STATUS_ACTIVE && KeyAccepted(key, info.info.typeCheckId)))) &&
            (o.sent != [] && st == SWUP_STATUS_ACTIVE ==> o.sent[0] == ClearRamManifest) &&
            (o.sent != [] && st == SWUP_STATUS_TRANSFER ==>
               o.sent[0] == if ComponentCount(size) == 0 then VerifyAll
                            else TransferComponent(0, StartingSegment(info.info.swupVersion),
                                                   pkg[TRANSFER_COMPONENT_0_OFFSET..TRANSFER_COMPONENT_0_OFFSET + TRANSFER_COMPONENT_SEGMENT_SIZE]))
  {
    var st := info.info.swupStatus;
    var start := StartingSegment(info.info.swupVersion);
    PlanShape(st, pkg, size, start);
    if ComponentCount(size) > 0 {
      ComponentAt(pkg, ComponentCount(size), start, 0);
    }
  }

  /** A run that reaches FinishUpdate has sent the whole plan: the manifest
      (from ACTIVE) and every whole segment after it, each accepted. */
  lemma ExecuteDeliversPackage(pkg: seq<u8>, size: u32, key: u32, info: DeviceInfoReply, reply: nat -> Reply)
    requires PackageFits(pkg, size) && info.info.Valid()
    requires var o := ExecuteOutcome(pkg, size, key, info, reply); o.sent != [] && o.sent[|o.sent| - 1] == FinishUpdate
    ensures var o := ExecuteOutcome(pkg, size, key, info, reply);
            var end := TRANSFER_COMPONENT_0_OFFSET + ComponentCount(size) * TRANSFER_COMPONENT_SEGMENT_SIZE;
            Payload(o.sent)
            == if info.info.swupStatus == SWUP_STATUS_ACTIVE then pkg[..end] else pkg[TRANSFER_COMPONENT_0_OFFSET..end]
  {
    var o := ExecuteOutcome(pkg, size, key, info, reply);
    var st := info.info.swupStatus;
    var start := StartingSegment(info.info.swupVersion);
    var plan := Plan(st, pkg, size, start);
    FinishIsLast(st, pkg, size, start);
    PlanPayload(st, pkg, size, start);
    var m := |o.sent|;
    assert o.sent == plan[..m] && o.sent[m - 1] == plan[m - 1];
    assert m == |plan|;
    assert o.sent == plan;
  }

  /** When every reply is the expected one and FinishUpdate answers success
      or nothing (the device resets), the run sends the whole plan and
      reports success. */
  lemma ExecuteSucceeds(pkg: seq<u8>, size: u32, key: u32, info: DeviceInfoReply, reply: nat -> Reply)
    requires PackageFits(pkg, size) && info.info.Valid()
    requires info.error == STATUS_CMD_SUCCESS
    requires var st := info.info.swupStatus;
             st == SWUP_STATUS_TRANSFER || (st == SWUP_STATUS_ACTIVE && KeyAccepted(key, info.info.typeCheckId))
    requires var plan := Plan(info.info.swupStatus, pkg, size, StartingSegment(info.info.swupVersion));
             forall j | 0 <= j < |plan| - 1 :: Continues(plan[j], reply(j))
    requires var last := |Plan(info.info.swupStatus, pkg, size, StartingSegment(info.info.swupVersion))| - 1;
             reply(last).error == STATUS_CMD_SUCCESS || reply(last).error == STATUS_GENERIC_ERROR
    ensures ExecuteOutcome(pkg, size, key, info, reply)
            == Outcome(STATUS_CMD_SUCCESS, Plan(info.info.swupStatus, pkg, size, StartingSegment(info.info.swupVersion)))
  {
    var st := info.info.swupStatus;
    var start := StartingSegment(info.info.swupVersion);
    var plan := Plan(st, pkg, size, start);
    PlanShape(st, pkg, size, start);
    DriveStops(plan, reply, |plan| - 1);
    assert plan[..|plan|] == plan;
  }

  /** The device is ready for an update: its information was read, and it
      is in TRANSFER, or ACTIVE and matching the key version. */
  predicate Ready(key: u32, info: DeviceInfoReply)
    requires info.info.Valid()
  {
    var st := info.info.swupStatus;
    info.error == STATUS_CMD_SUCCESS &&
    (st == SWUP_STATUS_TRANSFER || (st == SWUP_STATUS_ACTIVE && KeyAccepted(key, info.info.typeCheckId)))
  }

  /** As written, a device that is not ready is reported as updated: the
      status word of the successful GET_DEVICE_INFO is what is returned,
      although nothing was sent. */
  lemma ExecuteReportsSuccessWithoutUpdate(pkg: seq<u8>, size: u32, key: u32, info: DeviceInfoReply, reply: nat -> Reply)
    requires PackageFits(pkg, size) && info.info.Valid()
    requires info.error == STATUS_CMD_SUCCESS && !Ready(key, info)
    ensures ExecuteOutcome(pkg, size, key, info, reply) == Outcome(STATUS_CMD_SUCCESS, [])
  {
  }

  /** As written, a command answered with success but a wrong SWUP status
      ends the run with success too, although the plan was cut short. */
  lemma ExecuteReportsSuccessWhenCutShort(pkg: seq<u8>, size: u32, info: DeviceInfoReply)
    requires PackageFits(pkg, size) && info.info.Valid()
    requires info.error == STATUS_CMD_SUCCESS && info.info.swupStatus == SWUP_STATUS_ACTIVE
    ensures var o := ExecuteOutcome(pkg, size, KEY_VERSION_UNKNOWN, info, (k: nat) => Reply(STATUS_CMD_SUCCESS, SWUP_STATUS_INIT));
            o == Outcome(STATUS_CMD_SUCCESS, [ClearRamManifest])
  {
    var plan := Plan(SWUP_STATUS_ACTIVE, pkg, size, StartingSegment(info.info.swupVersion));
    PlanShape(SWUP_STATUS_ACTIVE, pkg, size, StartingSegment(info.info.swupVersion));
    DriveStops(plan, (k: nat) => Reply(STATUS_CMD_SUCCESS, SWUP_STATUS_INIT), 0);
  }

  /** Swup_Execute as its generic-error diagnostic describes it: a device
      that is not ACTIVE, a key-version or type-check mismatch, and a
      transfer left incomplete are all reported as STATUS_GENERIC_ERROR. */
  function ExecuteIntended(pkg: seq<u8>, size: u32, key: u32, info: DeviceInfoReply, reply: nat -> Reply): Outcome
    requires PackageFits(pkg, size) && info.info.Valid()
  {
    var plan := Plan(info.info.swupStatus, pkg, size, StartingSegment(info.info.swupVersion));
    if info.error != STATUS_CMD_SUCCESS then Outcome(info.error, [])
    else if !Ready(key, info) then Outcome(STATUS_GENERIC_ERROR, [])
    else
      var o := Drive(plan, reply, 0);
      if o.error == STATUS_CMD_SUCCESS && |o.sent| < |plan| then Outcome(STATUS_GENERIC_ERROR, o.sent) else o
  }

  /** With the intended status, success means exactly that the whole plan
      went out and FinishUpdate answered success or nothing. */
  lemma ExecuteIntendedSuccess(pkg: seq<u8>, size: u32, key: u32, info: DeviceInfoReply, reply: nat -> Reply)
    requires PackageFits(pkg, size) && info.info.Valid()
    ensures var plan := Plan(info.info.swupStatus, pkg, size, StartingSegment(info.info.swupVersion));
            var o := ExecuteIntended(pkg, size, key, info, reply);
            o.error == STATUS_CMD_SUCCESS
            <==> Ready(key, info) && o.sent == plan &&
                 (reply(|plan| - 1).error == STATUS_CMD_SUCCESS || reply(|plan| - 1).error == STATUS_GENERIC_ERROR)
  {
    var plan := Plan(info.info.swupStatus, pkg, size, StartingSegment(info.info.swupVersion));
    FinishIsLast(info.info.swupStatus, pkg, size, StartingSegment(info.info.swupVersion));
    if Ready(key, info) {
      var o := Drive(plan, reply, 0);
      if |o.sent| == |plan| {
        assert o.sent == plan[..|plan|] == plan;
      }
    }
  }

  /** The intended status differs from the written one only on the runs the
      written one reports as successful without finishing the update. */
  lemma ExecuteIntendedAgrees(pkg: seq<u8>, size: u32, key: u32, info: DeviceInfoReply, reply: nat -> Reply)
    requires PackageFits(pkg, size) && info.info.Valid()
    ensures var asWritten := ExecuteOutcome(pkg, size, key, info, reply);
            var intended := ExecuteIntended(pkg, size, key, info, reply);
            var plan := Plan(info.info.swupStatus, pkg, size, StartingSegment(info.info.swupVersion));
            intended.sent == asWritten.sent &&
            (intended.error != asWritten.error <==>
               asWritten.error == STATUS_CMD_SUCCESS && intended.error == STATUS_GENERIC_ERROR && |asWritten.sent| < |plan|)
  {
    PlanShape(info.info.swupStatus, pkg, size, StartingSegment(info.info.swupVersion));
  }
}
