/** The Internet checksum of the IP header (net/ustack/ip.c) and its
    incremental update in ICMP echo replies (net/ustack/icmp.c). */
module InternetChecksum {
  import opened Arithmetic

  const IP_VER_IHL := 0x4500
  const IP_DEFAULT_TTL := 64
  const IP_FLAG_MOREFRAG := 0x2000
  const IP_HEADER_SIZE := 20
  const ICMP_HDR_SIZE := 8
  const ICMP_ECHO := 8
  const ICMP_ECHO_REPLY := 0

  // offsets in the packet
  const VHL := 0
  const TOS := 1
  const LEN1 := 2
  const LEN2 := 3
  const IPID1 := 4
  const IPID2 := 5
  const FLAGS1 := 6
  const FLAGS2 := 7
  const TTL := 8
  const CHKSUM1 := 10
  const CHKSUM2 := 11
  const SRC := 12
  const DEST := 16
  const ICMP_TYPE := 20
  const ICMP_CHKSUM1 := 22
  const ICMP_CHKSUM2 := 23

  ghost predicate Bytes(s: seq<int>) {
    forall i :: 0 <= i < |s| ==> 0 <= s[i] < 256
  }

  /** The sum of the first k 16-bit words. */
  function WordSum(s: seq<int>, k: nat): int
    requires 2 * k <= |s|
  {
    if k == 0 then 0 else WordSum(s, k - 1) + s[2 * k - 2] * 256 + s[2 * k - 1]
  }

  /** Carries are added back in until 16 bits are left. */
  function Fold(sum: int): int
    requires sum >= 0
  {
    if sum < 0x1_0000 then sum else Fold(sum % 0x1_0000 + sum / 0x1_0000)
  }

  /** A sequence of an odd length counts as if a zero byte followed. */
  function Padded(s: seq<int>): seq<int> {
    if |s| % 2 == 1 then s + [0] else s
  }

  function Sum(s: seq<int>): int {
    WordSum(Padded(s), |Padded(s)| / 2)
  }

  /** Bytes whose one's complement sum, checksum included, is -0. */
  ghost predicate Verifies(s: seq<int>)
    requires Bytes(s)
  {
    SumPositive(Padded(s), |Padded(s)| / 2);
    Fold(Sum(s)) == 0xffff
  }

  lemma {:induction false} SumPositive(s: seq<int>, k: nat)
    requires 2 * k <= |s| && Bytes(s)
    ensures 0 <= WordSum(s, k) <= 0xffff * k
    ensures WordSum(s, k) == 0 ==> forall i :: 0 <= i < 2 * k ==> s[i] == 0
  {
    if k > 0 { SumPositive(s, k - 1); }
  }

  /** Folding keeps the sum modulo 2^16 - 1, and only 0 folds to 0. */
  lemma {:induction false} FoldLaw(sum: int) returns (q: int)
    requires sum >= 0
    ensures 0 <= Fold(sum) <= 0xffff && sum == Fold(sum) + 0xffff * q && q >= 0
    ensures Fold(sum) == 0 <==> sum == 0
    decreases sum
  {
    if sum < 0x1_0000 {
      q := 0;
    } else {
      var h := sum / 0x1_0000;
      assert sum == h * 0x1_0000 + sum % 0x1_0000;
      q := FoldLaw(sum % 0x1_0000 + h);
      q := q + h;
    }
  }

  /** A sum folds to 0xffff exactly if it is a positive multiple of 0xffff. */
  lemma FoldsToAllOnes(sum: int)
    requires sum >= 0
    ensures Fold(sum) == 0xffff <==> sum > 0 && sum % 0xffff == 0
  {
    var q := FoldLaw(sum);
    DivUnique(sum, 0xffff, if Fold(sum) == 0xffff then q + 1 else q);
  }

  lemma {:induction false} SumUpdate(s: seq<int>, k: nat, i: nat, v: int)
    requires 2 * k <= |s| && i < |s|
    ensures WordSum(s[i := v], k) == WordSum(s, k) + if i >= 2 * k then 0 else (v - s[i]) * (if i % 2 == 0 then 256 else 1)
  {
    if k > 0 { SumUpdate(s, k - 1, i, v); }
  }

  lemma {:induction false} SumPrefix(s: seq<int>, t: seq<int>, k: nat)
    requires 2 * k <= |s| && 2 * k <= |t| && forall i :: 0 <= i < 2 * k ==> s[i] == t[i]
    ensures WordSum(s, k) == WordSum(t, k)
  {
    if k > 0 { SumPrefix(s, t, k - 1); }
  }

  /** ipchksum. */
  method IpChksum(packet: array<int>) returns (sum: int)
    requires packet.Length >= IP_HEADER_SIZE && Bytes(packet[..])
    ensures WordSum(packet[..], 10) >= 0 && sum == Fold(WordSum(packet[..], 10))
    ensures sum == 0xffff <==> Verifies(packet[..IP_HEADER_SIZE])
    ensures 0 <= sum <= 0xffff
  {
    ghost var s := packet[..];
    sum := 0;
    var i := 0;
    while i < 20
      invariant 0 <= i <= 20 && i % 2 == 0 && sum == WordSum(s, i / 2) && 0 <= sum <= 0xffff * (i / 2)
    {
      assert packet[i] == s[i] && packet[i + 1] == s[i + 1];
      sum := sum + packet[i] * 256 + packet[i + 1];
      i := i + 2;
    }
    SumPositive(s, 10);
    ghost var total := sum;
    while sum >= 0x1_0000
      invariant 0 <= sum && Fold(sum) == Fold(total)
      decreases sum
    {
      sum := sum % 0x1_0000 + sum / 0x1_0000;
    }
    HeaderSum(s);
  }

  lemma HeaderSum(s: seq<int>)
    requires |s| >= IP_HEADER_SIZE
    ensures Sum(s[..IP_HEADER_SIZE]) == WordSum(s, 10)
  {
    SumPrefix(s, s[..IP_HEADER_SIZE], 10);
  }

  // ----- building a header -----

  /** The header that ip_out writes around the protocol byte, checksum zero. */
  ghost predicate HeaderFields(s: seq<int>, was: seq<int>, myip: seq<int>, dst: seq<int>, len: int)
    requires |myip| == |dst| == 4
  {
    && |s| == |was| >= IP_HEADER_SIZE
    && s[VHL] == 0x45 && s[TOS] == 0 && s[LEN1] == len / 256 && s[LEN2] == len % 256
    && s[IPID1] == s[IPID2] == s[FLAGS1] == s[FLAGS2] == 0 && s[TTL] == IP_DEFAULT_TTL
    && s[9] == was[9] && s[12..16] == myip && s[16..20] == dst
    && s[IP_HEADER_SIZE..] == was[IP_HEADER_SIZE..]
  }

  /** What ip_in demands of a header, at the host `addr` whose address has been
      configured. */
  predicate Accepts(packet: seq<int>, addr: seq<int>)
    requires |packet| >= IP_HEADER_SIZE && |addr| == 4
    requires forall i :: 0 <= i < |packet| ==> 0 <= packet[i] < 256
  {
    && packet[VHL] == IP_VER_IHL / 256
    && (packet[FLAGS1] * 256 + packet[FLAGS2]) % (2 * IP_FLAG_MOREFRAG) == 0
    && packet[TTL] != 0
    && packet[16..20] == addr
    && (SumPositive(packet, 10); Fold(WordSum(packet, 10)) == 0xffff)
  }

  /** The complement of the folded sum completes it to all ones. */
  lemma Completes(s: seq<int>)
    requires |s| >= IP_HEADER_SIZE && Bytes(s) && s[CHKSUM1] == s[CHKSUM2] == 0 && s[VHL] == 0x45
    ensures WordSum(s, 10) >= 0
    ensures var c := 0xffff - Fold(WordSum(s, 10));
      && 0 <= c <= 0xffff
      && var t := s[CHKSUM1 := c / 256][CHKSUM2 := c % 256];
         Bytes(t) && WordSum(t, 10) >= 0 && Fold(WordSum(t, 10)) == 0xffff
  {
    SumPositive(s, 10);
    var q := FoldLaw(WordSum(s, 10));
    var c := 0xffff - Fold(WordSum(s, 10));
    var s1 := s[CHKSUM1 := c / 256];
    var t := s1[CHKSUM2 := c % 256];
    SumUpdate(s, 10, CHKSUM1, c / 256);
    SumUpdate(s1, 10, CHKSUM2, c % 256);
    SumPositive(t, 10);
    assert WordSum(t, 10) == WordSum(s, 10) + c;
    assert WordSum(t, 10) == 0xffff * (q + 1);
    FoldsToAllOnes(WordSum(t, 10));
  }

  /** Lines 94-102: the fields that do not depend on the addresses. */
  method SetFixed(packet: array<int>, len: int)
    requires packet.Length >= IP_HEADER_SIZE && 0 <= len < 0x1_0000
    modifies packet
    ensures packet[VHL] == 0x45 && packet[TOS] == 0 && packet[LEN1] == len / 256 && packet[LEN2] == len % 256
    ensures packet[IPID1] == packet[IPID2] == packet[FLAGS1] == packet[FLAGS2] == 0 && packet[TTL] == IP_DEFAULT_TTL
    ensures forall i :: 9 <= i < packet.Length ==> packet[i] == old(packet[i])
  {
    packet[VHL] := IP_VER_IHL / 256;
    packet[TOS] := 0x00;
    packet[LEN1] := len / 256;
    packet[LEN2] := len % 256;
    packet[IPID1] := 0x00;
    packet[IPID2] := 0x00;
    packet[FLAGS1] := 0x00;
    packet[FLAGS2] := 0x00;
    packet[TTL] := IP_DEFAULT_TTL;
  }

  /** Lines 103-111: the addresses, and a checksum of zero. */
  method SetAddresses(packet: array<int>, myip: seq<int>, dst: seq<int>)
    requires packet.Length >= IP_HEADER_SIZE && |myip| == |dst| == 4
    modifies packet
    ensures packet[CHKSUM1] == packet[CHKSUM2] == 0
    ensures forall i :: 0 <= i < 4 ==> packet[SRC + i] == myip[i] && packet[DEST + i] == dst[i]
    ensures forall i :: 0 <= i < packet.Length && (i < 10 || i >= 20) ==> packet[i] == old(packet[i])
  {
    packet[SRC] := myip[0];
    packet[SRC + 1] := myip[1];
    packet[SRC + 2] := myip[2];
    packet[SRC + 3] := myip[3];
    packet[DEST] := dst[0];
    packet[DEST + 1] := dst[1];
    packet[DEST + 2] := dst[2];
    packet[DEST + 3] := dst[3];
    packet[CHKSUM1] := 0;
    packet[CHKSUM2] := 0;
  }

  /** The checksum bytes are not among the fields. */
  lemma FieldsKept(s: seq<int>, t: seq<int>, was: seq<int>, myip: seq<int>, dst: seq<int>, len: int)
    requires |myip| == |dst| == 4 && HeaderFields(s, was, myip, dst, len) && |t| == |s|
    requires forall i :: 0 <= i < |s| && i != CHKSUM1 && i != CHKSUM2 ==> t[i] == s[i]
    ensures HeaderFields(t, was, myip, dst, len)
  {
    assert t[12..16] == s[12..16] && t[16..20] == s[16..20] && t[20..] == s[20..];
  }

  /** Lines 112-114: the checksum that makes the header verify. */
  method SetChecksum(packet: array<int>)
    requires packet.Length >= IP_HEADER_SIZE && Bytes(packet[..])
    requires packet[CHKSUM1] == packet[CHKSUM2] == 0 && packet[VHL] == 0x45
    modifies packet
    ensures Bytes(packet[..]) && WordSum(packet[..], 10) >= 0 && Fold(WordSum(packet[..], 10)) == 0xffff
    ensures forall i :: 0 <= i < packet.Length && i != CHKSUM1 && i != CHKSUM2 ==> packet[i] == old(packet[i])
  {
    hide WordSum, Fold;
    ghost var s := packet[..];
    Completes(s);
    var sum := IpChksum(packet);
    sum := 0xffff - sum;
    packet[CHKSUM1] := sum / 256;
    packet[CHKSUM2] := sum % 256;
    assert packet[..] == s[CHKSUM1 := sum / 256][CHKSUM2 := sum % 256];
  }

  /** ip_out up to the call of netif_send: every header it builds is accepted
      by the destination. */
  method IpOut(myip: seq<int>, dst: seq<int>, packet: array<int>, len: int)
    requires packet.Length >= IP_HEADER_SIZE && Bytes(packet[..]) && 0 <= len < 0x1_0000
    requires |myip| == |dst| == 4 && Bytes(myip) && Bytes(dst)
    modifies packet
    ensures Bytes(packet[..]) && HeaderFields(packet[..], old(packet[..]), myip, dst, len)
    ensures Accepts(packet[..], dst)
  {
    ghost var was := packet[..];
    assert Bytes(was);
    SetFixed(packet, len);
    SetAddresses(packet, myip, dst);
    ghost var s := packet[..];
    FieldsSet(s, was, myip, dst, len);
    hide HeaderFields, WordSum, Fold;
    SetChecksum(packet);
    FieldsKept(s, packet[..], was, myip, dst, len);
    Accepted(packet[..], was, myip, dst, len);
  }

  lemma Accepted(s: seq<int>, was: seq<int>, myip: seq<int>, dst: seq<int>, len: int)
    requires |myip| == |dst| == 4 && HeaderFields(s, was, myip, dst, len) && Bytes(s)
    requires WordSum(s, 10) >= 0 && Fold(WordSum(s, 10)) == 0xffff
    ensures Accepts(s, dst)
  {
  }

  lemma FieldsSet(s: seq<int>, was: seq<int>, myip: seq<int>, dst: seq<int>, len: int)
    requires |myip| == |dst| == 4 && |s| == |was| >= IP_HEADER_SIZE && Bytes(was) && Bytes(myip) && Bytes(dst)
    requires s[VHL] == 0x45 && s[TOS] == 0 && s[LEN1] == len / 256 && s[LEN2] == len % 256 && 0 <= len < 0x1_0000
    requires s[IPID1] == s[IPID2] == s[FLAGS1] == s[FLAGS2] == 0 && s[TTL] == IP_DEFAULT_TTL
    requires s[CHKSUM1] == s[CHKSUM2] == 0
    requires forall i :: 0 <= i < 4 ==> s[SRC + i] == myip[i] && s[DEST + i] == dst[i]
    requires s[9] == was[9] && forall i :: 20 <= i < |s| ==> s[i] == was[i]
    ensures HeaderFields(s, was, myip, dst, len) && Bytes(s)
  {
    assert s[12..16] == myip;
    assert s[16..20] == dst;
    assert s[20..] == was[20..];
    forall i | 0 <= i < |s|
      ensures 0 <= s[i] < 256
    {
      if 12 <= i < 16 { assert s[i] == s[SRC + (i - 12)]; }
      if 16 <= i < 20 { assert s[i] == s[DEST + (i - 16)]; }
      if i >= 20 { assert s[i] == was[i]; }
    }
  }

  // ----- echo replies -----

  /** The ICMP message of a packet of len bytes. */
  function Message(packet: seq<int>, len: nat): seq<int>
    requires IP_HEADER_SIZE <= len <= |packet|
  {
    packet[IP_HEADER_SIZE..len]
  }

  /** Type byte and checksum after lines 16-24. */
  function ReplyChecksum(chksum: int): int {
    if chksum > 0xffff - ICMP_ECHO * 256 then (chksum + ICMP_ECHO * 256 + 1) % 0x1_0000 else chksum + ICMP_ECHO * 256
  }

  function Reply(msg: seq<int>): seq<int>
    requires |msg| >= ICMP_HDR_SIZE
  {
    var c := ReplyChecksum(msg[2] * 256 + msg[3]);
    msg[0 := ICMP_ECHO_REPLY][2 := c / 256][3 := c % 256]
  }

  lemma ReplyPadded(msg: seq<int>)
    requires |msg| >= ICMP_HDR_SIZE && Bytes(msg)
    ensures Bytes(Reply(msg)) && Padded(Reply(msg)) == Reply(Padded(msg)) && Bytes(Padded(msg))
  {
  }

  /** The type byte goes from 8 to 0 and the checksum makes up for it. */
  lemma {:induction false} ReplySum(s: seq<int>, k: nat)
    requires |s| >= ICMP_HDR_SIZE && Bytes(s) && s[0] == ICMP_ECHO && 4 <= 2 * k <= |s|
    ensures var chksum := s[2] * 256 + s[3];
      WordSum(Reply(s), k) == WordSum(s, k) - if chksum > 0xffff - ICMP_ECHO * 256 then 0xffff else 0
  {
    var chksum := s[2] * 256 + s[3];
    var c := ReplyChecksum(chksum);
    var s1 := s[0 := ICMP_ECHO_REPLY];
    var s2 := s1[2 := c / 256];
    hide WordSum;
    SumUpdate(s, k, 0, ICMP_ECHO_REPLY);
    SumUpdate(s1, k, 2, c / 256);
    SumUpdate(s2, k, 3, c % 256);
  }

  lemma {:induction false} AtLeastTwoWords(s: seq<int>, k: nat)
    requires Bytes(s) && 2 <= k && 2 * k <= |s|
    ensures WordSum(s, k) >= s[0] * 256 + s[1] + s[2] * 256 + s[3]
  {
    if k > 2 {
      AtLeastTwoWords(s, k - 1);
    } else {
      assert WordSum(s, 0) == 0 && WordSum(s, 1) == s[0] * 256 + s[1];
    }
  }

  lemma SameResidue(x: int)
    requires x >= 0x1_0000
    ensures (x - 0xffff) % 0xffff == 0 <==> x % 0xffff == 0
  {
  }

  /** The two sums are positive multiples of 0xffff together. */
  lemma ReplyMultiple(s: seq<int>, k: nat)
    requires |s| >= ICMP_HDR_SIZE && Bytes(s) && s[0] == ICMP_ECHO && 4 <= 2 * k <= |s|
    ensures var x, y := WordSum(s, k), WordSum(Reply(s), k);
      x >= 0 && y >= 0 && (x > 0 && x % 0xffff == 0 <==> y > 0 && y % 0xffff == 0)
  {
    hide WordSum, Reply, ReplyChecksum;
    ReplyLength(s);
    ReplySum(s, k);
    AtLeastTwoWords(s, k);
    if WordSum(Reply(s), k) != WordSum(s, k) {
      SameResidue(WordSum(s, k));
    }
  }

  /** The reply verifies exactly if the request does, for a message of any length. */
  lemma ReplyVerifies(msg: seq<int>)
    requires |msg| >= ICMP_HDR_SIZE && Bytes(msg) && msg[0] == ICMP_ECHO
    ensures Bytes(Reply(msg)) && (Verifies(Reply(msg)) <==> Verifies(msg))
  {
    ReplyPadded(msg);
    hide WordSum, Reply, Fold;
    var s := Padded(msg);
    ReplyLength(msg);
    ReplyLength(s);
    ReplyMultiple(s, |s| / 2);
    FoldsToAllOnes(WordSum(s, |s| / 2));
    FoldsToAllOnes(WordSum(Reply(s), |s| / 2));
  }

  lemma ReplyLength(msg: seq<int>)
    requires |msg| >= ICMP_HDR_SIZE
    ensures |Reply(msg)| == |msg|
  {
  }

  lemma MessageTail(s: seq<int>, t: seq<int>, len: nat)
    requires |s| == |t| && IP_HEADER_SIZE <= len <= |s| && s[IP_HEADER_SIZE..] == t[IP_HEADER_SIZE..]
    ensures Message(s, len) == Message(t, len)
  {
    assert Message(s, len) == s[IP_HEADER_SIZE..][..len - IP_HEADER_SIZE];
    assert Message(t, len) == t[IP_HEADER_SIZE..][..len - IP_HEADER_SIZE];
  }

  /** The checksum grows by 8 * 256, in one's complement, and is never 0. */
  lemma ChecksumGrows(chksum: int)
    requires 0 <= chksum <= 0xffff
    ensures var c := ReplyChecksum(chksum); 1 <= c <= 0xffff && (c - chksum - ICMP_ECHO * 256) % 0xffff == 0
  {
  }

  lemma TurnedMessage(was: seq<int>, len: nat, c: int)
    requires IP_HEADER_SIZE + ICMP_HDR_SIZE <= len <= |was| && Bytes(was)
    requires c == ReplyChecksum(was[ICMP_CHKSUM1] * 256 + was[ICMP_CHKSUM2])
    ensures var s := was[ICMP_TYPE := ICMP_ECHO_REPLY][ICMP_CHKSUM1 := c / 256][ICMP_CHKSUM2 := c % 256];
      Bytes(s) && Message(s, len) == Reply(Message(was, len)) && s[12..16] == was[12..16]
  {
    hide ReplyChecksum;
    ChecksumGrows(was[ICMP_CHKSUM1] * 256 + was[ICMP_CHKSUM2]);
  }

  /** Lines 16-24: the type and the checksum are rewritten. */
  method TurnAround(packet: array<int>, ghost len: nat)
    requires IP_HEADER_SIZE + ICMP_HDR_SIZE <= len <= packet.Length && Bytes(packet[..])
    modifies packet
    ensures Bytes(packet[..]) && Message(packet[..], len) == Reply(Message(old(packet[..]), len))
    ensures packet[12..16] == old(packet[12..16]) && packet[ICMP_TYPE] == ICMP_ECHO_REPLY
    ensures forall i :: IP_HEADER_SIZE < i < packet.Length && i != ICMP_CHKSUM1 && i != ICMP_CHKSUM2 ==> packet[i] == old(packet[i])
    ensures var c, was := packet[ICMP_CHKSUM1] * 256 + packet[ICMP_CHKSUM2],
                          old(packet[ICMP_CHKSUM1]) * 256 + old(packet[ICMP_CHKSUM2]);
            1 <= c <= 0xffff && (c - was - ICMP_ECHO * 256) % 0xffff == 0
  {
    hide Bytes, Message, Reply;
    ghost var was := packet[..];
    ByteAt(was, ICMP_CHKSUM1);
    ByteAt(was, ICMP_CHKSUM2);
    packet[ICMP_TYPE] := ICMP_ECHO_REPLY;
    var chksum := packet[ICMP_CHKSUM1] * 256 + packet[ICMP_CHKSUM2];
    ghost var before := chksum;
    if chksum > 0xffff - ICMP_ECHO * 256 {
      chksum := (chksum + ICMP_ECHO * 256 + 1) % 0x1_0000;
    } else {
      chksum := (chksum + ICMP_ECHO * 256) % 0x1_0000;
    }
    assert chksum == ReplyChecksum(before);
    TurnedMessage(was, len, chksum);
    ChecksumGrows(before);
    hide ReplyChecksum;
    packet[ICMP_CHKSUM1] := chksum / 256;
    packet[ICMP_CHKSUM2] := chksum % 256;
    assert packet[..] == was[ICMP_TYPE := ICMP_ECHO_REPLY][ICMP_CHKSUM1 := chksum / 256][ICMP_CHKSUM2 := chksum % 256];
  }

  lemma ByteAt(s: seq<int>, i: nat)
    requires Bytes(s) && i < |s|
    ensures 0 <= s[i] < 256
  {
  }

  lemma HeaderMeans(s: seq<int>, was: seq<int>, myip: seq<int>, dst: seq<int>, len: int)
    requires |myip| == |dst| == 4 && HeaderFields(s, was, myip, dst, len)
    ensures s[12..16] == myip && s[LEN1] * 256 + s[LEN2] == len
    ensures forall i :: IP_HEADER_SIZE <= i < |s| ==> s[i] == was[i]
  {
    forall i | IP_HEADER_SIZE <= i < |s|
      ensures s[i] == was[i]
    {
      assert s[i] == s[IP_HEADER_SIZE..][i - IP_HEADER_SIZE];
    }
  }

  /** icmp_echo_reply up to the call of netif_send. */
  method IcmpEchoReply(myip: seq<int>, packet: array<int>, len: nat) returns (r: int)
    requires IP_HEADER_SIZE + ICMP_HDR_SIZE <= len <= packet.Length && len < 0x1_0000 && Bytes(packet[..])
    requires |myip| == 4 && Bytes(myip)
    modifies packet
    ensures Bytes(packet[..])
    ensures r == -1 <==> old(packet[ICMP_TYPE]) != ICMP_ECHO
    ensures r == -1 ==> packet[..] == old(packet[..])
    ensures r != -1 ==>
      && r == 0 && Message(packet[..], len) == Reply(Message(old(packet[..]), len))
      && (Verifies(Message(packet[..], len)) <==> Verifies(Message(old(packet[..]), len)))
      && Accepts(packet[..], old(packet[12..16]))
      && packet[12..16] == myip && packet[LEN1] * 256 + packet[LEN2] == len
      && packet[ICMP_TYPE] == ICMP_ECHO_REPLY
      && (forall i :: IP_HEADER_SIZE < i < packet.Length && i != ICMP_CHKSUM1 && i != ICMP_CHKSUM2 ==> packet[i] == old(packet[i]))
      && var c, was := packet[ICMP_CHKSUM1] * 256 + packet[ICMP_CHKSUM2],
                       old(packet[ICMP_CHKSUM1]) * 256 + old(packet[ICMP_CHKSUM2]);
         1 <= c <= 0xffff && (c - was - ICMP_ECHO * 256) % 0xffff == 0
  {
    hide Verifies, Reply, Accepts;
    if packet[ICMP_TYPE] == ICMP_ECHO {
      ghost var was := packet[..];
      TurnAround(packet, len);
      var dst := packet[12..16];
      ghost var s := packet[..];
      IpOut(myip, dst, packet, len);
      MessageTail(packet[..], s, len);
      HeaderMeans(packet[..], s, myip, dst, len);
      ReplyVerifies(Message(was, len));
      return 0;
    }
    return -1;
  }
}
