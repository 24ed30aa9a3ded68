/** The offline computation of the registers, beside the measurements made at boot. */
module MigtdHash {
  import opened Words
  import opened Measurement
  import opened EventLogs

  const MR_INDEX_POLICY_ISSUER_CHAIN: u32 := 2
  const MR_INDEX_POLICY: u32 := 3
  const MR_INDEX_ROOT_CA: u32 := 3
  const MR_INDEX_TEST_FEATURE: u32 := 3

  /** What an image is built with, and the files in its configuration volume. `testEvent` is
      the fixed event measured when remote attestation is disabled. */
  datatype Image = Image(raDisabled: bool, policyV2: bool,
                         policy: Bytes, rootCa: Bytes, issuerChain: Bytes, testEvent: Bytes)

  class Rtmr {
    const hash: Bytes -> Digest
    var reg: Slot

    ghost function Value(): Digest
      reads this`reg
    {
      reg[..48]
    }

    constructor (hash: Bytes -> Digest, value: Digest)
      ensures this.hash == hash && Value() == value
    {
      this.hash := hash;
      var half: Bytes := Zeros(48);
      var low: Bytes := value;
      reg := low + half;
    }

    method ExtendWithRawData(data: Bytes)
      modifies this`reg
      ensures Value() == Offline(hash, old(Value()), [data])
    {
      var digest := hash(data);
      ghost var was := Value();
      reg := ExtendSlot(hash, reg, digest);
      assert [] + [data] == [data];
      OfflineAppend(hash, was, [], data);
    }
  }

  /** RTMR1 as the tool computes it, from the value the firmware leaves. */
  method Rtmr1(hash: Bytes -> Digest, image: Image, firmware: Digest) returns (value: Digest)
    ensures value == Offline(hash, firmware, OfflineChain(image))
  {
    var rtmr := new Rtmr(hash, firmware);
    if image.policyV2 {
      rtmr.ExtendWithRawData(image.issuerChain);
    }
    value := rtmr.reg[..48];
  }

  /** RTMR2 as the tool computes it. */
  method Rtmr2(hash: Bytes -> Digest, image: Image) returns (value: Digest)
    ensures value == Offline(hash, ZERO, OfflinePolicy(image))
  {
    hide Offline;
    var rtmr := new Rtmr(hash, ZERO);
    if !image.raDisabled {
      rtmr.ExtendWithRawData(image.policy);
      if !image.policyV2 {
        OfflineTwo(hash, ZERO, image.policy, image.rootCa);
        rtmr.ExtendWithRawData(image.rootCa);
      }
    } else {
      rtmr.ExtendWithRawData(image.testEvent);
    }
    value := rtmr.reg[..48];
  }

  ghost function OfflineChain(image: Image): seq<Bytes> {
    if image.policyV2 then [image.issuerChain] else []
  }

  ghost function OfflinePolicy(image: Image): seq<Bytes> {
    if image.raDisabled then [image.testEvent]
    else if image.policyV2 then [image.policy]
    else [image.policy, image.rootCa]
  }

  lemma OfflineTwo(hash: Bytes -> Digest, reg: Digest, x: Bytes, y: Bytes)
    ensures Offline(hash, Offline(hash, reg, [x]), [y]) == Offline(hash, reg, [x, y])
  {
  }

  /** What the boot measures, in order: the test event alone, or the files of the image. The
      data recorded with an event is not hashed; `version` stands for the policy's. */
  function BootEntries(image: Image, version: Bytes): seq<Entry> {
    if image.raDisabled then [Entry(MR_INDEX_TEST_FEATURE, image.testEvent, 0x32, image.testEvent)]
    else if image.policyV2 then
      [Entry(MR_INDEX_POLICY_ISSUER_CHAIN, image.issuerChain, 3, image.issuerChain),
       Entry(MR_INDEX_POLICY, image.policy, 1, version)]
    else
      [Entry(MR_INDEX_POLICY, image.policy, 1, image.policy),
       Entry(MR_INDEX_ROOT_CA, image.rootCa, 2, image.rootCa)]
  }

  lemma BootBlobs(image: Image, version: Bytes)
    ensures BlobsOf(BootEntries(image, version), 2) == OfflinePolicy(image)
    ensures BlobsOf(BootEntries(image, version), 1) ==
            if image.policyV2 && !image.raDisabled then [image.issuerChain] else []
  {
    hide BlobsOf;
    var entries := BootEntries(image, version);
    if |entries| == 2 {
      TwoBlobs(entries[0], entries[1], 1);
      TwoBlobs(entries[0], entries[1], 2);
    } else {
      OneBlob(entries[0], 1);
      OneBlob(entries[0], 2);
    }
  }

  function Into(e: Entry, i: nat): seq<Bytes> {
    if e.mrIndex == i + 1 then [e.raw] else []
  }

  lemma OneBlob(e: Entry, i: nat)
    ensures BlobsOf([e], i) == Into(e, i)
  {
  }

  lemma TwoBlobs(e: Entry, f: Entry, i: nat)
    ensures BlobsOf([e, f], i) == Into(e, i) + Into(f, i)
  {
    hide BlobsOf;
    assert [e] + [f] == [e, f];
    OneBlob(e, i);
    BlobsOfAppend([e], f, i);
  }

  lemma NoBlobs(image: Image, version: Bytes)
    ensures BlobsOf(BootEntries(image, version), 0) == [] && BlobsOf(BootEntries(image, version), 3) == []
  {
    hide BlobsOf;
    var entries := BootEntries(image, version);
    if |entries| == 2 {
      TwoBlobs(entries[0], entries[1], 0);
      TwoBlobs(entries[0], entries[1], 3);
    } else {
      OneBlob(entries[0], 0);
      OneBlob(entries[0], 3);
    }
  }

  /** The boot measurements on a log that verifies so far. They are all written exactly if the
      TDX module works and they leave a byte to spare, and then the tool's RTMR2 is the
      register's value; its RTMR1 is too, except on an image built with both options, where the
      tool extends the issuer chain and the boot does not. */
  method DoMeasurements(log: EventLog, image: Image, version: Bytes, works: seq<bool>) returns (ok: bool)
    requires |works| == |BootEntries(image, version)|
    requires log.Valid() && log.Good() && log.Shown() == log.stored && log.rtmrs[2] == ZERO
    modifies log`rtmrs, log`stored
    ensures log.Valid()
    ensures var size := SizeOf(log.hash, BootEntries(image, version));
            ok <==> log.start + TotalSize(old(log.stored)) + size < log.capacity && false !in works
    ensures ok ==> log.Good()
    ensures ok ==> log.rtmrs[0] == old(log.rtmrs[0]) && log.rtmrs[3] == old(log.rtmrs[3])
    ensures ok ==> log.rtmrs[2] == Offline(log.hash, ZERO, OfflinePolicy(image))
    ensures ok ==> (log.rtmrs[1] == Offline(log.hash, old(log.rtmrs[1]), OfflineChain(image))
                    <==> !(image.raDisabled && image.policyV2)
                         || Extend(log.hash, old(log.rtmrs[1]), log.hash(image.issuerChain)) == old(log.rtmrs[1]))
  {
    hide Extend, SizeOf;
    ok := WriteAll(log, BootEntries(image, version), works);
    BootBlobs(image, version);
    assert [] + [image.issuerChain] == [image.issuerChain];
    OfflineAppend(log.hash, old(log.rtmrs[1]), [], image.issuerChain);
    NoBlobs(image, version);
  }
}
