/** What a reader of the conf finds in each peer's section: its fields, each under its own label. */
module ConfBody {
  import opened Text
  import opened TextLaws
  import opened ConfFile
  import opened ConfKinds
  import opened ConfLaws
  import opened ConfTheorems

  /** The value of a line "label = value", if it has that label. */
  function ValueIn(line: string, tag: string): seq<string> {
    var kv := SplitEq(line);
    if kv.Some? && TrimSpace(kv.value.0) == tag then [TrimSpace(kv.value.1)] else []
  }

  function ValuesOf(ls: seq<string>, tag: string): seq<string> {
    if ls == [] then [] else ValuesOf(ls[..|ls| - 1], tag) + ValueIn(ls[|ls| - 1], tag)
  }

  /** A field that is written only when it is set. */
  function IfSet(value: string): seq<string> {
    if value == "" then [] else [TrimSpace(value)]
  }

  /** The lines give every field of the peer, once, under its label. */
  ghost predicate Tells(ls: seq<string>, p: PeerConf) {
    && ValuesOf(ls, "PublicKey") == [TrimSpace(p.publicKey)]
    && ValuesOf(ls, "AllowedIPs") == [TrimSpace(p.allowedIPs)]
    && ValuesOf(ls, "PresharedKey") == IfSet(p.presharedKey)
    && ValuesOf(ls, "Endpoint") == IfSet(p.endpoint)
    && var k := ValuesOf(ls, "PersistentKeepalive");
       if p.keepalive > 0 then |k| == 1 && ReadDecimal(k[0]) == p.keepalive else k == []
  }

  lemma {:induction false} ValuesConcat(a: seq<string>, b: seq<string>, tag: string)
    ensures ValuesOf(a + b, tag) == ValuesOf(a, tag) + ValuesOf(b, tag)
  {
    hide ValueIn;
    if b == [] {
      assert a + b == a && ValuesOf(a, tag) + [] == ValuesOf(a, tag);
    } else {
      var n := |b| - 1;
      assert (a + b)[..|a| + n] == a + b[..n];
      ValuesConcat(a, b[..n], tag);
    }
  }

  lemma ValuesOne(line: string, tag: string)
    ensures ValuesOf([line], tag) == ValueIn(line, tag)
  {
    hide ValueIn;
    assert [line][..0] == [];
  }

  predicate IsLabel(s: string) {
    s in {"PublicKey", "AllowedIPs", "PresharedKey", "Endpoint", "PersistentKeepalive"}
  }

  lemma LabelText(tag: string)
    requires IsLabel(tag)
    ensures '=' !in tag + " " && TrimSpace(tag + " ") == tag
  {
    hide TrimLeft;
    TrimLabelled(tag, " ");
    assert TrimRight(" ") == "" by { assert " "[..0] == ""; }
    assert tag + "" == tag;
  }

  /** A labelled line gives its value under its own label and none under another. */
  lemma LabelledLine(field: string, value: string, tag: string)
    requires IsLabel(field)
    ensures ValueIn(field + " = " + value, tag) == if tag == field then [TrimSpace(value)] else []
  {
    hide TrimSpace, SplitEq, IsLabel;
    LabelText(field);
    assert field + " = " + value == (field + " ") + "=" + (" " + value);
    SplitEqAt(field + " ", " " + value);
    TrimLeading(value);
  }

  lemma NoLabel(line: string, tag: string)
    requires line == "" || line == "[Peer]"
    ensures ValueIn(line, tag) == []
  {
    assert '=' !in line;
    NoEq(line);
  }

  lemma {:induction false} NoEq(line: string)
    requires '=' !in line
    ensures SplitEq(line) == None
  {
    if line != "" {
      NoEq(line[1..]);
    }
  }

  lemma MetaHasNoLabel(key: string, value: string, tag: string)
    requires key in {"name", "created", "notes"} && IsLabel(tag)
    ensures ValueIn("# wg-sockd:" + key + "=" + value, tag) == []
  {
    hide TrimSpace, SplitEq, IsLabel;
    var head := "# wg-sockd:" + key;
    assert '=' !in head;
    SplitEqAt(head, value);
    assert head[0] == '#' && !IsSpace(head[0]);
    SolidKey(key);
    HashStays(head);
    LabelStart(tag);
  }

  lemma HashStays(s: string)
    requires s != "" && s[0] == '#'
    ensures TrimSpace(s) != "" && TrimSpace(s)[0] == '#'
  {
    TrimRightConcat("#", s[1..]);
    assert s == "#" + s[1..];
    assert TrimRight("#") == "#";
  }

  lemma LabelStart(tag: string)
    requires IsLabel(tag)
    ensures tag != "" && tag[0] != '#'
  {
  }

  /** A blank line and the metadata of the next peer add no value. */
  lemma TrailNoValues(p: PeerConf, tag: string)
    requires IsLabel(tag)
    ensures ValuesOf([""] + MetaLines(p), tag) == []
  {
    hide ValueIn, Sanitize, IsLabel;
    var a, b, c := Sanitize(p.friendlyName), p.created, Sanitize(p.notes);
    MetaHasNoLabel("name", a, tag);
    MetaHasNoLabel("created", b, tag);
    MetaHasNoLabel("notes", c, tag);
    assert "# wg-sockd:" + "name" + "=" + a == "# wg-sockd:name=" + a;
    assert "# wg-sockd:" + "created" + "=" + b == "# wg-sockd:created=" + b;
    assert "# wg-sockd:" + "notes" + "=" + c == "# wg-sockd:notes=" + c;
    NoLabel("", tag);
    NoValues([""] + MetaLines(p), tag);
  }

  lemma {:induction false} NoValues(ls: seq<string>, tag: string)
    requires forall l :: l in ls ==> ValueIn(l, tag) == []
    ensures ValuesOf(ls, tag) == []
  {
    hide ValueIn;
    if ls != [] {
      var n := |ls| - 1;
      assert ls[n] in ls && forall l :: l in ls[..n] ==> l in ls;
      NoValues(ls[..n], tag);
    }
  }

  function KeepaliveLines(p: PeerConf): seq<string> {
    if p.keepalive > 0 then ["PersistentKeepalive = " + Decimal(p.keepalive)] else []
  }

  lemma SectionPieces(p: PeerConf)
    ensures ["[Peer]", "PublicKey = " + p.publicKey] + BodyLines(p) ==
      ["[Peer]"] + ["PublicKey = " + p.publicKey] + ["AllowedIPs = " + p.allowedIPs]
      + Optional("PresharedKey = ", p.presharedKey) + Optional("Endpoint = ", p.endpoint) + KeepaliveLines(p)
  {
    hide Decimal, Optional;
  }

  lemma ValuesConcatSix(
    a: seq<string>, b: seq<string>, c: seq<string>, d: seq<string>, e: seq<string>, f: seq<string>, tag: string)
    ensures ValuesOf(a + b + c + d + e + f, tag) ==
      ValuesOf(a, tag) + ValuesOf(b, tag) + ValuesOf(c, tag) + ValuesOf(d, tag) + ValuesOf(e, tag) + ValuesOf(f, tag)
  {
    hide ValuesOf;
    ValuesConcat(a, b, tag);
    ValuesConcat(a + b, c, tag);
    ValuesConcat(a + b + c, d, tag);
    ValuesConcat(a + b + c + d, e, tag);
    ValuesConcat(a + b + c + d + e, f, tag);
  }

  lemma OptionalValues(field: string, value: string, tag: string)
    requires IsLabel(field)
    ensures ValuesOf(Optional(field + " = ", value), tag) == if tag == field then IfSet(value) else []
  {
    hide ValueIn, TrimSpace, IsLabel;
    if value == "" {
      NoValues([], tag);
    } else {
      FieldValues(field, value, tag);
    }
  }

  lemma KeepaliveValues(p: PeerConf, tag: string)
    ensures ValuesOf(KeepaliveLines(p), tag) ==
      if tag == "PersistentKeepalive" && p.keepalive > 0 then [TrimSpace(Decimal(p.keepalive))] else []
  {
    hide ValueIn, TrimSpace, Decimal;
    NoValues([], tag);
    if p.keepalive > 0 {
      FieldValues("PersistentKeepalive", Decimal(p.keepalive), tag);
      assert "PersistentKeepalive" + " = " == "PersistentKeepalive = ";
    }
  }

  /** The values that the lines of one section give under a label. */
  lemma SectionValues(p: PeerConf, tag: string)
    requires IsLabel(tag)
    ensures ValuesOf(["[Peer]", "PublicKey = " + p.publicKey] + BodyLines(p), tag) ==
      (if tag == "PublicKey" then [TrimSpace(p.publicKey)] else [])
      + (if tag == "AllowedIPs" then [TrimSpace(p.allowedIPs)] else [])
      + (if tag == "PresharedKey" then IfSet(p.presharedKey) else [])
      + (if tag == "Endpoint" then IfSet(p.endpoint) else [])
      + (if tag == "PersistentKeepalive" && p.keepalive > 0 then [TrimSpace(Decimal(p.keepalive))] else [])
  {
    hide ValuesOf, ValueIn, TrimSpace, Decimal, IsLabel, IfSet, Optional, KeepaliveLines, BodyLines;
    AllLabels();
    NoLabel("[Peer]", tag);
    ValuesOne("[Peer]", tag);
    FieldValues("PublicKey", p.publicKey, tag);
    FieldValues("AllowedIPs", p.allowedIPs, tag);
    OptionalValues("PresharedKey", p.presharedKey, tag);
    OptionalValues("Endpoint", p.endpoint, tag);
    KeepaliveValues(p, tag);
    SectionPieces(p);
    assert "PublicKey" + " = " == "PublicKey = " && "AllowedIPs" + " = " == "AllowedIPs = ";
    assert "PresharedKey" + " = " == "PresharedKey = " && "Endpoint" + " = " == "Endpoint = ";
    ValuesConcatSix(
      ["[Peer]"], ["PublicKey = " + p.publicKey], ["AllowedIPs = " + p.allowedIPs],
      Optional("PresharedKey = ", p.presharedKey), Optional("Endpoint = ", p.endpoint), KeepaliveLines(p), tag);
  }

  lemma AllLabels()
    ensures IsLabel("PublicKey") && IsLabel("AllowedIPs") && IsLabel("PresharedKey") && IsLabel("Endpoint")
    ensures IsLabel("PersistentKeepalive")
  {
  }

  lemma FieldValues(field: string, value: string, tag: string)
    requires IsLabel(field)
    ensures ValuesOf([field + " = " + value], tag) == if tag == field then [TrimSpace(value)] else []
  {
    hide ValueIn, TrimSpace;
    LabelledLine(field, value, tag);
    ValuesOne(field + " = " + value, tag);
  }

  lemma DecimalTrimmed(n: nat)
    ensures TrimSpace(Decimal(n)) == Decimal(n)
  {
    hide Decimal;
    DecimalDigits(n);
    DecimalReads(n);
    var s := Decimal(n);
    assert s[0] in s && s[|s| - 1] in s;
  }

  lemma SectionTells(p: PeerConf)
    ensures Tells(["[Peer]", "PublicKey = " + p.publicKey] + BodyLines(p), p)
  {
    hide ValuesOf, BodyLines, TrimSpace, Decimal, ReadDecimal;
    AllLabels();
    SectionValues(p, "PublicKey");
    SectionValues(p, "AllowedIPs");
    SectionValues(p, "PresharedKey");
    SectionValues(p, "Endpoint");
    SectionValues(p, "PersistentKeepalive");
    if p.keepalive > 0 {
      DecimalTrimmed(p.keepalive);
      DecimalReads(p.keepalive);
    }
  }

  lemma TellsMore(ls: seq<string>, more: seq<string>, p: PeerConf)
    requires Tells(ls, p) && forall tag :: IsLabel(tag) ==> ValuesOf(more, tag) == []
    ensures Tells(ls + more, p)
  {
    hide ValuesOf, TrimSpace;
    AllLabels();
    ValuesConcat(ls, more, "PublicKey");
    ValuesConcat(ls, more, "AllowedIPs");
    ValuesConcat(ls, more, "PresharedKey");
    ValuesConcat(ls, more, "Endpoint");
    ValuesConcat(ls, more, "PersistentKeepalive");
  }

  // ---------------------------------------------------------------- the sections of a written file

  /** A section as it stands in the file. */
  ghost predicate TellsRaw(section: ConfPeer, p: PeerConf) {
    section.publicKey == TrimSpace(p.publicKey) && Tells(Split(section.rawLines, '\n'), p)
  }

  lemma JoinedTells(ls: seq<string>, p: PeerConf)
    requires AllOneLine(ls) && Tells(ls, p)
    ensures Tells(Split(JoinLines(ls), '\n'), p)
  {
    hide Split, JoinLines, Tells;
    SplitJoin(ls);
    forall tag | IsLabel(tag) ensures ValuesOf([""], tag) == [] {
      NoLabel("", tag);
      ValuesOne("", tag);
    }
    TellsMore(ls, [""], p);
  }

  /** The closed sections tell of all peers but the last, the open one of the last. */
  ghost predicate Sections(st: State, ps: seq<PeerConf>)
    requires ps != []
  {
    var n := |ps| - 1;
    && st.cur == InPeer && |st.peers| == n && (forall i :: 0 <= i < n ==> TellsRaw(st.peers[i], ps[i]))
    && st.key == TrimSpace(ps[n].publicKey) && st.peer != [] && AllOneLine(st.peer) && Tells(st.peer, ps[n])
  }

  lemma SectionClean(p: PeerConf)
    requires Writable(p)
    ensures AllOneLine(["[Peer]", "PublicKey = " + p.publicKey] + BodyLines(p))
    ensures AllOneLine([""] + MetaLines(p))
  {
    hide BodyLines, MetaLines, Writable;
    PeerLinesClean(p);
    var ls := PeerLines(p);
    assert ls == [""] + MetaLines(p) + ["[Peer]", "PublicKey = " + p.publicKey] + BodyLines(p);
    assert forall l :: l in ["[Peer]", "PublicKey = " + p.publicKey] + BodyLines(p) ==> l in ls;
    assert forall l :: l in [""] + MetaLines(p) ==> l in ls;
  }

  /** The first section closes none, as none is open. */
  lemma FirstSection(st: State, p: PeerConf)
    requires st.cur != InPeer && st.peer == [] && st.peers == [] && Writable(p)
    ensures Sections(Steps(st, PeerLines(p)), [p])
  {
    hide Steps, PeerLines, MetaLines, BodyLines, Tells, AllOneLine, TrimSpace, Writable;
    OnePeer(st, p);
    SectionTells(p);
    SectionClean(p);
  }

  /** A further one closes the section that is open, after the blank line and the metadata that precede its header. */
  lemma NextSection(st: State, ps: seq<PeerConf>, p: PeerConf)
    requires ps != [] && Sections(st, ps) && Writable(p)
    ensures Sections(Steps(st, PeerLines(p)), ps + [p])
  {
    hide Steps, PeerLines, MetaLines, BodyLines, Tells, AllOneLine, TrimSpace, Writable, JoinLines, Split;
    OnePeer(st, p);
    SectionTells(p);
    SectionClean(p);
    var closed := st.peer + ([""] + MetaLines(p));
    assert st.peer + [""] + MetaLines(p) == closed;
    forall tag | IsLabel(tag) ensures ValuesOf([""] + MetaLines(p), tag) == [] {
      TrailNoValues(p, tag);
    }
    TellsMore(st.peer, [""] + MetaLines(p), ps[|ps| - 1]);
    BothClean(st.peer, [""] + MetaLines(p));
    JoinedTells(closed, ps[|ps| - 1]);
  }

  lemma BothClean(a: seq<string>, b: seq<string>)
    requires AllOneLine(a) && AllOneLine(b)
    ensures AllOneLine(a + b)
  {
  }

  lemma {:induction false} AllSections(st: State, ps: seq<PeerConf>)
    requires st.cur != InPeer && st.peer == [] && st.peers == [] && ps != [] && AllWritable(ps)
    ensures Sections(Steps(st, AllPeerLines(ps)), ps)
  {
    hide Steps, PeerLines, Sections, Writable;
    var n := |ps| - 1;
    assert ps == ps[..n] + [ps[n]] && ps[n] in ps;
    if n == 0 {
      assert AllPeerLines(ps[..0]) == [] && [] + PeerLines(ps[0]) == PeerLines(ps[0]);
      FirstSection(st, ps[0]);
      assert [ps[0]] == ps;
    } else {
      assert forall p :: p in ps[..n] ==> p in ps;
      AllSections(st, ps[..n]);
      StepsConcat(st, AllPeerLines(ps[..n]), PeerLines(ps[n]));
      NextSection(Steps(st, AllPeerLines(ps[..n])), ps[..n], ps[n]);
    }
  }

  /** The end of the file closes the last section. */
  lemma LastSection(st: State, ps: seq<PeerConf>)
    requires ps != [] && Sections(st, ps)
    ensures var sections := FlushPeer(Step(st, "")).peers;
      |sections| == |ps| && forall i :: 0 <= i < |ps| ==> TellsRaw(sections[i], ps[i])
  {
    hide Tells, TrimSpace, JoinLines, Split, KindOf, Step;
    BlankStep(st);
    forall tag | IsLabel(tag) ensures ValuesOf([""], tag) == [] {
      NoLabel("", tag);
      ValuesOne("", tag);
    }
    TellsMore(st.peer, [""], ps[|ps| - 1]);
    BothClean(st.peer, [""]);
    JoinedTells(st.peer + [""], ps[|ps| - 1]);
  }

  /** What the parser has collected of a file that was just written. */
  lemma CollectedWritten(file: Option<string>, ps: seq<PeerConf>)
    requires AllWritable(ps) && ps != []
    ensures Collected(Some(Written(file, ps))) == Step(Steps(HeadState(file), AllPeerLines(ps)), "")
  {
    hide Step, Steps, AllPeerLines, HeadState, Split, JoinLines, Written, AllWritable;
    var head, body := HeadLines(file), AllPeerLines(ps);
    WrittenLines(file, ps);
    HeadSteps(file);
    AllPeerLinesClean(ps);
    BothClean(head, body);
    SomeLines(ps);
    NotEmpty(head + body);
    SplitJoin(head + body);
    StepsConcat(START, head, body);
    StepsConcat(START, head + body, [""]);
    SingleStep(Steps(START, head + body), "");
  }

  lemma SomeLines(ps: seq<PeerConf>)
    requires ps != []
    ensures AllPeerLines(ps) != []
  {
  }

  /**
   * Parsing a written file finds one section for each peer, in order, and each field of the peer in its section under
   * its own label, with its own value, and only when it is set.
   */
  lemma FieldsRoundTrip(file: Option<string>, ps: seq<PeerConf>)
    requires AllWritable(ps)
    ensures var sections := Parse(Written(file, ps)).peers;
      |sections| == |ps| && forall i :: 0 <= i < |ps| ==> TellsRaw(sections[i], ps[i])
  {
    hide Step, Steps, AllPeerLines, TellsRaw, Split, JoinLines, Written, AllWritable, DropBlank, TrimNewlines;
    if ps == [] {
      KeysRoundTrip(file, ps);
    } else {
      AllSections(HeadState(file), ps);
      CollectedWritten(file, ps);
      LastSection(Steps(HeadState(file), AllPeerLines(ps)), ps);
    }
  }
}
