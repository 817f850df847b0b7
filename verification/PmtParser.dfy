/** process_pmt and its helpers (src/pmt.cpp:1993-2255): the section read through moving offsets into the fields
    of the PMT, proved equal to module PmtSection's reader. Claims and states are module Election's matter. */
module PmtParser {
  import opened Bytes
  import opened PmtData
  import opened PmtSection

  lemma ReadDescriptorSize(b: Data, at: nat)
    ensures ReadDescriptor(b, at).len == At(b, at + 1) == |ReadDescriptor(b, at).data|
  {
  }

  /** is_ac3_es. */
  method IsAc3(b: Data, at: nat, len: nat) returns (isAc3: bool)
    ensures isAc3 == IsAc3Es(b, at, at + len)
  {
    isAc3 := false;
    var i := 0;
    while i < len
      invariant IsAc3Es(b, at, at + len) == (isAc3 || IsAc3Es(b, at + i, at + len))
      decreases len - i
    {
      if IsAc3Tag(At(b, at + i)) { isAc3 := true; }
      i := i + At(b, at + i + 1) + 2;
    }
  }

  class Pmt {
    var sid: nat
    /** -1 until the first section is parsed. */
    var version: int
    var pcrPid: nat
    var descriptors: seq<Descriptor>
    var streamPids: seq<StreamPid>
    const ca: array<CaEntry>
    var caids: nat

    ghost predicate Valid()
      reads this
    {
      ca.Length == MAX_CAID && caids <= MAX_CAID
    }

    function Cas(): seq<CaEntry>
      requires Valid()
      reads this, ca
    {
      ca[..caids]
    }

    function Content(): PmtContent
      requires Valid()
      reads this, ca
    {
      PmtContent(descriptors, streamPids, Cas())
    }

    constructor ()
      ensures Valid() && fresh(ca) && version == -1 && Content() == PmtContent([], [], [])
    {
      sid, version, pcrPid, descriptors, streamPids, caids := 0, -1, 0, [], [], 0;
      ca := new CaEntry[MAX_CAID](_ => CaEntry(0, 0, []));
    }

    /** pmt_caid_exist. */
    method CaidExists(id: nat, pid: nat) returns (r: bool)
      requires Valid()
      ensures r == HasCa(Cas(), id, pid)
    {
      for i := 0 to caids
        invariant forall j :: 0 <= j < i ==> !(ca[j].id == id && ca[j].pid == pid)
      {
        if ca[i].id == id && ca[i].pid == pid {
          assert Cas()[i] == ca[i];
          return true;
        }
      }
      return false;
    }

    /** pmt_add_caid. */
    method AddCaEntry(id: nat, pid: Pid, data: Data, len: int)
      requires Valid() && len <= |data|
      modifies this`caids, ca
      ensures Valid() && Cas() == AddCaid(old(Cas()), id, pid, data, len)
    {
      var known := CaidExists(id, pid);
      if known || caids >= MAX_CAID || len < 0 {
        return;
      }
      ca[caids] := CaEntry(id, pid, data[..len]);
      caids := caids + 1;
    }

    /** One descriptor into `ds`: the loop body of pmt_add_descriptors and pmt_add_stream_pid_descriptors. */
    method AddDescriptor(b: Data, at: nat, ds: seq<Descriptor>) returns (r: seq<Descriptor>)
      requires Valid()
      modifies this`caids, ca
      ensures Valid() && (r, Cas()) == AddDescriptorAt(b, at, ds, old(Cas()))
    {
      hide HasCa;
      var d := ReadDescriptor(b, at);
      ReadDescriptorSize(b, at);
      if d in ds {
        return ds;
      }
      r := ds + [d];
      if d.kind == CA_TAG {
        AddCaEntry(Word(b, at + 2), Low13(b, at + 4), if |d.data| >= 4 then d.data[4..] else [], d.len as int - 4);
      }
    }

    /** pmt_add_descriptors and pmt_add_stream_pid_descriptors. */
    method AddDescriptors(b: Data, at: nat, len: nat, ds: seq<Descriptor>) returns (r: seq<Descriptor>)
      requires Valid()
      modifies this`caids, ca
      ensures Valid() && (r, Cas()) == ParseDescriptors(b, at, at + len, ds, old(Cas()))
    {
      hide AddDescriptorAt, At;
      r := ds;
      var i := 0;
      while i < len
        invariant Valid()
        invariant ParseDescriptors(b, at, at + len, ds, old(Cas())) == ParseDescriptors(b, at + i, at + len, r, Cas())
        decreases len - i
      {
        r := AddDescriptor(b, at + i, r);
        i := i + At(b, at + i + 1) + 2;
      }
    }

    /** The loop over the elementary streams; `pcr` comes back 0 when a stream carries the PCR. */
    method AddStreams(b: Data, start: nat, pmtLen: nat, pcrPid: nat) returns (pcr: nat, cut: bool)
      requires Valid()
      modifies this`streamPids, this`caids, ca
      ensures Valid()
      ensures Parsed(streamPids, Cas(), pcr, cut)
              == ParseStreams(b, start, pmtLen as int - 1, Parsed(old(streamPids), old(Cas()), pcrPid, false))
    {
      hide ParseDescriptors, At, Word, ReadStream;
      pcr, cut := pcrPid, false;
      var i := start;
      while i < pmtLen - 1
        invariant Valid()
        invariant ParseStreams(b, start, pmtLen as int - 1, Parsed(old(streamPids), old(Cas()), pcrPid, false))
                  == ParseStreams(b, i, pmtLen as int - 1, Parsed(streamPids, Cas(), pcr, false))
        decreases pmtLen - i
      {
        var s, esLen := StreamAt(b, i);
        if pcr == s.pid { pcr := 0; }
        streamPids := streamPids + [s];
        if i + 5 + esLen > pmtLen + 3 {
          cut := true;
          return;
        }
        if s.isAudio || s.isVideo {
          var ds := AddDescriptors(b, i + 5, esLen, []);
          ghost var listed := streamPids;
          streamPids := streamPids[|streamPids| - 1 := s.(descriptors := ds)];
          assert streamPids == listed[..|listed| - 1] + [s.(descriptors := ds)];
        } else {
          assert s.(descriptors := []) == s;
        }
        i := i + 5 + esLen;
      }
    }

    /** Kind, pid and flags of the stream at offset i, and the length of its descriptor loop. */
    method StreamAt(b: Data, i: nat) returns (s: StreamPid, esLen: nat)
      ensures s == ReadStream(b, i) && s.descriptors == [] && esLen == Low12(b, i + 3)
    {
      esLen := Low12(b, i + 3);
      var kind, isAc3 := At(b, i), false;
      if kind == 6 {
        isAc3 := IsAc3(b, i + 5, esLen);
      } else if kind == 129 {
        isAc3 := true;
      }
      var isVideo := kind == 2 || kind == 27 || kind == 36 || kind == 15;
      var isAudio := isAc3 || kind == 3 || kind == 4 || kind == 17;
      s := StreamPid(kind, Low13(b, i + 1), isAudio, isVideo, []);
    }

    /** process_pmt: a new version replaces the whole content by what the section says; anything else is
        left alone. */
    method ProcessPmt(b: Data) returns (parsed: bool)
      requires Valid()
      modifies this, ca
      ensures Valid()
      ensures parsed == (At(b, 0) == 2 && old(version) != At(b, 5) % 0x40 / 2)
      ensures !parsed ==> version == old(version) && sid == old(sid) && pcrPid == old(pcrPid) && Content() == old(Content())
      ensures parsed ==> var p := ParsePmt(b); version == p.version && sid == p.sid && pcrPid == p.pcr && Content() == p.content
    {
      hide ParseDescriptors, ParseStreams, At, Word;
      var ver := At(b, 5) % 0x40 / 2;
      if At(b, 0) != 2 || version == ver {
        return false;
      }
      caids := 0;
      var pmtLen, piLen, pcr := Low12(b, 1), Low12(b, 10), Low13(b, 8);
      sid, version, pcrPid := Word(b, 3), ver, pcr;
      descriptors, streamPids := [], [];
      assert Cas() == [];
      if 0 < piLen < pmtLen {
        descriptors := AddDescriptors(b, 12, piLen, descriptors);
      }
      var left, cut := AddStreams(b, 12 + piLen, pmtLen, pcr);
      if 0 < left < 8191 {
        streamPids := streamPids + [StreamPid(0, left, false, false, [])];
      }
      return true;
    }
  }
}
