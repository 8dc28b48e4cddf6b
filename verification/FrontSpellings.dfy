/** How iptables-save prints a front's MASQUERADE rule. */
module FrontSpellings {
  import opened Words
  import opened Spelling
  import opened Fronts
  import opened FrontRules

  /** The address bare or with its mask, in front of or behind the protocol, which may load its module, and
      the comment bare or in quotes. */
  datatype MasqStyle = MasqStyle(masked: bool, addressFirst: bool, loads: bool, quoted: bool)

  function MasqTail(f: Front, comment: string): seq<string>
  {
    ["--dport", BackendPort(f), "-m", "comment", "--comment"] + ([comment] + ["-j", "MASQUERADE"])
  }

  function AddressWords(ip: string, masked: bool): seq<string> { ["-d", if masked then ip + "/32" else ip] }

  function ProtoWords(loads: bool): seq<string> { ["-p"] + if loads then ["udp", "-m", "udp"] else ["udp"] }

  function ShownMasq(f: Front, ip: string, st: MasqStyle): seq<string>
  {
    var a, p := AddressWords(ip, st.masked), ProtoWords(st.loads);
    ["-A", "POSTROUTING"] + (if st.addressFirst then a + p else p + a) + MasqTail(f, Printed(Comment(f), st.quoted))
  }

  lemma AddressMeaning(ip: string, masked: bool)
    requires AllAddr(ip)
    ensures Meant("-d", if masked then ip + "/32" else ip, true) == ip && !Special(ip, true)
  {
    AddressPlain(ip);
    if masked {
      var w := ip + "/32";
      assert w[..|w| - 3] == ip && w[|w| - 3..] == "/32";
    }
  }

  lemma AddressRead(prev: string, ip: string, masked: bool, rest: seq<string>)
    requires AllAddr(ip) && !Special(prev, true)
    ensures Folded(prev, AddressWords(ip, masked) + rest, true) == ["-d", ip] + Folded(ip, rest, true)
    ensures !Special(ip, true)
  {
    AddressMeaning(ip, masked);
    var w := if masked then ip + "/32" else ip;
    var ws, us := AddressWords(ip, masked) + rest, [w] + rest;
    FoldedFirst(prev, ws, true);
    assert ws[1..] == us && us[1..] == rest;
  }

  lemma UdpRead(loads: bool, rest: seq<string>)
    requires rest != [] ==> rest[0] != "-m"
    ensures Folded("-p", (if loads then ["udp", "-m", "udp"] else ["udp"]) + rest, true) ==
            ["udp"] + Folded("udp", rest, true)
  {
    if loads {
      FoldedModule("udp", rest, true);
    } else {
      FoldedProto("udp", rest, true);
    }
  }

  lemma ProtoRead(prev: string, loads: bool, rest: seq<string>)
    requires !Special(prev, true) && (rest != [] ==> rest[0] != "-m")
    ensures Folded(prev, ProtoWords(loads) + rest, true) == ["-p", "udp"] + Folded("udp", rest, true)
  {
    var us := (if loads then ["udp", "-m", "udp"] else ["udp"]) + rest;
    assert ProtoWords(loads) + rest == ["-p"] + us;
    FoldedCons("-p", prev, us, true);
    UdpRead(loads, rest);
  }

  lemma WordsPlain(f: Front, i: nat)
    requires i < 4
    ensures !Special(["--dport", BackendPort(f), "-m", "comment", "--comment"][i], true)
  {
    assert IsDigit(BackendPort(f)[0]);
  }

  lemma MasqTailRead(prev: string, f: Front, quoted: bool)
    requires !Special(prev, true)
    ensures Folded(prev, MasqTail(f, Printed(Comment(f), quoted)), true) == MasqRest(f)
  {
    var a := ["--dport", BackendPort(f), "-m", "comment", "--comment"];
    CommentMeant(f, quoted);
    forall i | 0 <= i < 4
      ensures !Special(a[i], true)
    {
      WordsPlain(f, i);
    }
    FoldedAround(prev, a, Printed(Comment(f), quoted), Comment(f), ["-j", "MASQUERADE"]);
  }

  lemma AddressFirstRead(f: Front, ip: string, st: MasqStyle)
    requires AllAddr(ip)
    ensures var tail := MasqTail(f, Printed(Comment(f), st.quoted));
            Folded("POSTROUTING", AddressWords(ip, st.masked) + (ProtoWords(st.loads) + tail), true) ==
            ["-d", ip] + (["-p", "udp"] + MasqRest(f))
  {
    var tail := MasqTail(f, Printed(Comment(f), st.quoted));
    AddressRead("POSTROUTING", ip, st.masked, ProtoWords(st.loads) + tail);
    ProtoRead(ip, st.loads, tail);
    MasqTailRead("udp", f, st.quoted);
  }

  lemma ProtoFirstRead(f: Front, ip: string, st: MasqStyle)
    requires AllAddr(ip)
    ensures var tail := MasqTail(f, Printed(Comment(f), st.quoted));
            Folded("POSTROUTING", ProtoWords(st.loads) + (AddressWords(ip, st.masked) + tail), true) ==
            ["-p", "udp"] + (["-d", ip] + MasqRest(f))
  {
    var tail := MasqTail(f, Printed(Comment(f), st.quoted));
    ProtoRead("POSTROUTING", st.loads, AddressWords(ip, st.masked) + tail);
    AddressRead("udp", ip, st.masked, tail);
    MasqTailRead(ip, f, st.quoted);
  }

  lemma OrderedAddress(c: string, ip: string, proto: string, rest: seq<string>)
    ensures Ordered([c] + (["-d", ip] + (["-p", proto] + rest))) == [c] + (["-p", proto] + (["-d", ip] + rest))
  {
    var r := [c] + (["-d", ip] + (["-p", proto] + rest));
    assert r[5..] == rest;
  }

  lemma ProtoThenAddress(f: Front, ip: string)
    ensures ["POSTROUTING"] + (["-p", "udp"] + (["-d", ip] + MasqRest(f))) == MasqRule(f, ip)
  {
    MasqAsHead(f, ip);
    assert ["-p"] + (["udp"] + (["-d", ip] + MasqRest(f))) == ["-p", "udp"] + (["-d", ip] + MasqRest(f));
  }

  lemma ShownMasqArgs(f: Front, ip: string, st: MasqStyle)
    ensures var tail := MasqTail(f, Printed(Comment(f), st.quoted));
            var a, p := AddressWords(ip, st.masked), ProtoWords(st.loads);
            ShownMasq(f, ip, st)[1..] == ["POSTROUTING"] + if st.addressFirst then a + (p + tail) else p + (a + tail)
  {
  }

  /** Every such line shows the front's MASQUERADE rule, the one that a command without mask and module adds
      and deletes. */
  lemma ShownMasqIsSaved(f: Front, ip: string, st: MasqStyle)
    requires AllAddr(ip)
    ensures IsSaved(ShownMasq(f, ip, st), MasqRule(f, ip))
  {
    var ws := ShownMasq(f, ip, st)[1..];
    ShownMasqArgs(f, ip, st);
    FoldedCons("POSTROUTING", "", ws[1..], true);
    assert ws == ["POSTROUTING"] + ws[1..];
    MasqAsHead(f, ip);
    if st.addressFirst {
      AddressFirstRead(f, ip, st);
      OrderedAddress("POSTROUTING", ip, "udp", MasqRest(f));
      ProtoThenAddress(f, ip);
    } else {
      ProtoFirstRead(f, ip, st);
      ProtoThenAddress(f, ip);
    }
  }
}
