/** The main results on the conf file: put-put, stability of what is not ours, and the metadata round trip. */
module ConfTheorems {
  import opened Text
  import opened ConfFile
  import opened ConfKinds
  import opened ConfLaws

  // ---------------------------------------------------------------- what a written file parses to

  function HeadState(file: Option<string>): State {
    var pre, iface := DropBlank(Collected(file).pre), DropBlank(Collected(file).iface);
    START.(cur := if iface == [] then InPre else InInterface, pre := pre, iface := iface)
  }

  lemma PrefixOf<T>(a: seq<T>, b: seq<T>)
    requires a <= b
    ensures forall x :: x in a ==> x in b
  {
    assert forall i :: 0 <= i < |a| ==> a[i] == b[i];
  }

  lemma HeadSteps(file: Option<string>)
    ensures Steps(START, HeadLines(file)) == HeadState(file)
    ensures AllOneLine(HeadLines(file))
  {
    hide Step, Steps, Collected, KindOf, DropBlank;
    var st := Collected(file);
    CollectedShaped(file);
    var pre, iface := DropBlank(st.pre), DropBlank(st.iface);
    PrefixOf(pre, st.pre);
    PrefixOf(iface, st.iface);
    HeaderStays(st.iface);
    PlainSteps(pre);
    StepsConcat(START, pre, iface);
    if iface == [] {
      NoSteps(START.(pre := pre));
    } else {
      InterfaceSteps(START.(pre := pre), iface);
    }
  }

  /** Without [Interface], the metadata of the first peer ends up before it, in the text kept verbatim. */
  function Absorbed(file: Option<string>, ps: seq<PeerConf>): seq<string> {
    if HasInterface(file) || ps == [] || MetaLines(ps[0]) == [] then [] else [""] + MetaLines(ps[0])
  }

  lemma {:induction false} FirstPeer(st: State, ps: seq<PeerConf>)
    requires st.cur == InPre && st.peer == [] && st.peers == [] && ps != []
    ensures var s' := Steps(st, AllPeerLines(ps));
      && s'.cur != InPre && (s'.cur == InPeer <==> s'.peer != [])
      && s'.pre == st.pre + [""] + MetaLines(ps[0]) && DropBlank(s'.iface) == DropBlank(st.iface)
      && KeysRead(s') == WrittenKeys(ps)
  {
    hide Step, KindOf, PeerLines, TrimSpace, KeysRead, KeysOf, DropBlank, MetaLines;
    var n := |ps| - 1;
    if n == 0 {
      assert AllPeerLines(ps[..0]) == [];
      assert AllPeerLines(ps) == PeerLines(ps[0]) by { assert [] + PeerLines(ps[0]) == PeerLines(ps[0]); }
      OnePeer(st, ps[0]);
      NothingRead(st);
      FlushKeys(Steps(st, PeerLines(ps[0])));
      assert [] + [TrimSpace(ps[0].publicKey)] == WrittenKeys(ps);
    } else {
      FirstPeer(st, ps[..n]);
      var s1 := Steps(st, AllPeerLines(ps[..n]));
      StepsConcat(st, AllPeerLines(ps[..n]), PeerLines(ps[n]));
      OnePeer(s1, ps[n]);
      DropBlankSnoc(s1.iface);
      FlushKeys(Steps(s1, PeerLines(ps[n])));
      assert WrittenKeys(ps) == WrittenKeys(ps[..n]) + [TrimSpace(ps[n].publicKey)];
    }
  }

  lemma NothingRead(st: State)
    requires st.peer == [] && st.peers == []
    ensures KeysRead(st) == []
  {
  }

  lemma {:induction false} DropMeta(pre: seq<string>, meta: seq<string>)
    requires forall l :: l in meta ==> KindOf(l).MetaLine?
    ensures DropBlank(pre + [""] + meta) == if meta == [] then DropBlank(pre) else pre + [""] + meta
  {
    hide KindOf;
    if meta == [] {
      assert pre + [""] + [] == pre + [""];
      DropBlankSnoc(pre);
    } else {
      var l := meta[|meta| - 1];
      assert l in meta;
      BlankKind();
      assert (pre + [""] + meta)[|pre + [""] + meta| - 1] == l;
    }
  }

  /** What reading the peers' lines adds to the state after the head: absorbed lines, and the keys. */
  ghost predicate Reads(st0: State, st: State, extra: seq<string>, keys: seq<string>) {
    && DropBlank(st.pre) == DropBlank(st0.pre) + extra
    && DropBlank(st.iface) == DropBlank(st0.iface)
    && KeysRead(st) == keys
  }

  lemma ReadInInterface(st: State, ps: seq<PeerConf>)
    requires st.cur == InInterface && st.peer == [] && st.peers == []
    ensures Reads(st, Steps(st, AllPeerLines(ps)), [], WrittenKeys(ps))
  {
    hide Step, Steps, KindOf, PeerLines, KeysRead, DropBlank, AllPeerLines;
    NothingRead(st);
    PeerSteps(st, ps);
    assert [] + WrittenKeys(ps) == WrittenKeys(ps);
    assert DropBlank(st.pre) + [] == DropBlank(st.pre);
  }

  lemma ReadNoPeers(st: State)
    requires st.peer == [] && st.peers == []
    ensures Reads(st, Steps(st, AllPeerLines([])), [], WrittenKeys([]))
  {
    hide Step, KindOf, DropBlank;
    NoSteps(st);
    NothingRead(st);
    assert DropBlank(st.pre) + [] == DropBlank(st.pre);
  }

  lemma ReadBeforeInterface(st: State, ps: seq<PeerConf>)
    requires st.cur == InPre && st.peer == [] && st.peers == [] && ps != [] && DropBlank(st.pre) == st.pre
    ensures var extra := if MetaLines(ps[0]) == [] then [] else [""] + MetaLines(ps[0]);
      Reads(st, Steps(st, AllPeerLines(ps)), extra, WrittenKeys(ps))
  {
    hide Step, Steps, KindOf, PeerLines, KeysRead, DropBlank, AllPeerLines, MetaLines, WrittenKeys;
    FirstPeer(st, ps);
    MetaKinds(ps[0]);
    DropMeta(st.pre, MetaLines(ps[0]));
    assert st.pre + ([""] + MetaLines(ps[0])) == st.pre + [""] + MetaLines(ps[0]);
    assert DropBlank(st.pre) + [] == DropBlank(st.pre);
  }

  /** The state after reading the lines of a written file, without the empty piece after the last newline. */
  lemma BodyRead(file: Option<string>, ps: seq<PeerConf>)
    ensures var st := Steps(HeadState(file), AllPeerLines(ps));
      && DropBlank(st.pre) == DropBlank(Collected(file).pre) + Absorbed(file, ps)
      && DropBlank(st.iface) == DropBlank(Collected(file).iface)
      && KeysRead(st) == WrittenKeys(ps)
  {
    hide Step, Steps, AllPeerLines, WrittenKeys, KeysRead, DropBlank, MetaLines, Collected, ParseFile;
    var st0 := HeadState(file);
    WrittenLines(file, ps);
    DropBlankTwice(Collected(file).pre);
    DropBlankTwice(Collected(file).iface);
    if st0.cur == InInterface {
      ReadInInterface(st0, ps);
    } else if ps == [] {
      ReadNoPeers(st0);
    } else {
      ReadBeforeInterface(st0, ps);
    }
  }

  lemma LastBlank(st: State)
    ensures DropBlank(Step(st, "").pre) == DropBlank(st.pre)
    ensures DropBlank(Step(st, "").iface) == DropBlank(st.iface)
    ensures (st.cur == InPeer <==> st.peer != []) ==> KeysRead(Step(st, "")) == KeysRead(st)
  {
    hide Step, KindOf, JoinLines;
    BlankStep(st);
    DropBlankSnoc(st.pre);
    DropBlankSnoc(st.iface);
  }

  /** What the parser collects from a written file. */
  lemma Reread(file: Option<string>, ps: seq<PeerConf>)
    requires AllWritable(ps)
    ensures var st := Collected(Some(Written(file, ps)));
      && DropBlank(st.pre) == DropBlank(Collected(file).pre) + Absorbed(file, ps)
      && DropBlank(st.iface) == DropBlank(Collected(file).iface)
      && KeysRead(st) == WrittenKeys(ps)
  {
    hide Step, Steps, KindOf, AllPeerLines, KeysRead, DropBlank, Absorbed, AllWritable, Split, JoinLines, Written, WrittenKeys;
    var ls := HeadLines(file) + AllPeerLines(ps);
    WrittenLines(file, ps);
    HeadSteps(file);
    AllPeerLinesClean(ps);
    BodyRead(file, ps);
    StepsConcat(START, HeadLines(file), AllPeerLines(ps));
    var st := Steps(START, ls);
    if ls == [] {
      assert JoinLines(ls) == "" by { EmptyBuffers(); }
      NoSteps(START);
    } else {
      NotEmpty(ls);
      SplitJoin(ls);
      StepsConcat(START, ls, [""]);
      SingleStep(st, "");
      LastBlank(st);
      StepsShaped(ls);
    }
  }

  lemma NotEmpty(ls: seq<string>)
    requires ls != []
    ensures JoinLines(ls) != ""
  {
  }

  // ---------------------------------------------------------------- put-put

  /** When a second write can know nothing of the first: [Interface] is there, or no metadata is absorbed. */
  predicate Stable(file: Option<string>, ps: seq<PeerConf>) {
    HasInterface(file) || ps == [] || MetaLines(ps[0]) == []
  }

  lemma WriteHead(file: Option<string>, ps: seq<PeerConf>)
    requires AllWritable(ps)
    ensures HeadLines(Some(Written(file, ps)))
         == DropBlank(Collected(file).pre) + Absorbed(file, ps) + DropBlank(Collected(file).iface)
  {
    hide Collected, DropBlank, Absorbed, AllWritable, Written;
    Reread(file, ps);
  }

  /**
   * Put-put: writing ps and then qs gives byte for byte the file of writing qs alone, exactly when the
   * file has an [Interface] line or the first peer of ps has no metadata.
   */
  lemma PutPutIff(file: Option<string>, ps: seq<PeerConf>, qs: seq<PeerConf>)
    requires AllWritable(ps)
    ensures Written(Some(Written(file, ps)), qs) == Written(file, qs) <==> Stable(file, ps)
  {
    hide Collected, DropBlank, AllWritable, Written, AllPeerLines, JoinLines, MetaLines, HasInterface;
    var pre, extra, iface := DropBlank(Collected(file).pre), Absorbed(file, ps), DropBlank(Collected(file).iface);
    WriteHead(file, ps);
    WrittenLines(file, qs);
    WrittenLines(Some(Written(file, ps)), qs);
    JoinConcat(pre + extra + iface, AllPeerLines(qs));
    JoinConcat(pre + extra, iface);
    JoinConcat(pre, extra);
    JoinConcat(pre + iface, AllPeerLines(qs));
    JoinConcat(pre, iface);
    if Stable(file, ps) {
      assert pre + [] == pre;
    } else {
      NotEmpty(extra);
      assert |Written(Some(Written(file, ps)), qs)| > |Written(file, qs)|;
    }
  }

  /** Without [Interface], on an absent file: the name of a peer outlives the peer. */
  lemma PutPutFails(p: PeerConf)
    requires Writable(p) && p.friendlyName != ""
    ensures Written(Some(Written(None, [p])), []) != Written(None, [])
  {
    hide Written;
    assert MetaLines(p)[0] == "# wg-sockd:name=" + Sanitize(p.friendlyName);
    PutPutIff(None, [p], []);
  }

  /** Under [Interface], any written file gives back the same text before it and the same interface text. */
  lemma HeadIsKept(file: Option<string>, ps: seq<PeerConf>)
    requires AllWritable(ps) && HasInterface(file)
    ensures var conf := Parse(Written(file, ps));
      conf.pre == ParseFile(file).pre && conf.iface == ParseFile(file).iface
  {
    hide Collected, DropBlank, AllWritable, Written, AllPeerLines, JoinLines, Split, Steps, TrimNewlines;
    var written := Some(Written(file, ps));
    Reread(file, ps);
    assert DropBlank(Collected(file).pre) + [] == DropBlank(Collected(file).pre);
    SameText(written, file);
  }

  /** Texts are determined by their lines without the blank ones at the end. */
  lemma SameText(a: Option<string>, b: Option<string>)
    requires DropBlank(Collected(a).pre) == DropBlank(Collected(b).pre)
    requires DropBlank(Collected(a).iface) == DropBlank(Collected(b).iface)
    ensures ParseFile(a).pre == ParseFile(b).pre && ParseFile(a).iface == ParseFile(b).iface
  {
    hide Split, Steps, JoinLines, TrimNewlines, DropBlank;
    CollectedShaped(a);
    CollectedShaped(b);
    TextOf(a);
    TextOf(b);
    TrimJoined(Collected(a).pre);
    TrimJoined(Collected(b).pre);
    TrimJoined(Collected(a).iface);
    TrimJoined(Collected(b).iface);
    LineInjective(ParseFile(a).pre, ParseFile(b).pre);
    LineInjective(ParseFile(a).iface, ParseFile(b).iface);
  }

  lemma TextOf(file: Option<string>)
    ensures ParseFile(file).pre == TrimNewlines(JoinLines(Collected(file).pre))
    ensures ParseFile(file).iface == TrimNewlines(JoinLines(Collected(file).iface))
  {
    hide Split, Steps, JoinLines, TrimNewlines;
    EmptyBuffers();
    TrimEmpty();
  }

  lemma LineInjective(a: string, b: string)
    ensures Line(a) == Line(b) ==> a == b
  {
    if Line(a) == Line(b) {
      assert a == Line(a)[..|a|] && b == Line(b)[..|b|];
    }
  }

  // ---------------------------------------------------------------- round trips

  /** ParseConf reads back exactly the keys written, in order, whatever the file was before. */
  lemma KeysRoundTrip(file: Option<string>, ps: seq<PeerConf>)
    requires AllWritable(ps)
    ensures KeysOf(Parse(Written(file, ps)).peers) == WrittenKeys(ps)
  {
    hide DropBlank, AllWritable, Written, Split, Steps, KeysOf, WrittenKeys, JoinLines, TrimNewlines, Absorbed;
    Reread(file, ps);
  }

  lemma {:induction false} ScanConcat(s: Scan, a: seq<string>, b: seq<string>)
    ensures ScanLines(s, a + b) == ScanLines(ScanLines(s, a), b)
  {
    hide ScanLine;
    if b == [] {
      assert a + b == a;
    } else {
      var n := |b| - 1;
      assert (a + b)[..|a| + n] == a + b[..n];
      ScanConcat(s, a, b[..n]);
    }
  }

  /** The scanner's state between peers: nothing pending. */
  function Between(result: map<string, PeerMeta>): Scan {
    Scan(NO_META, false, result)
  }

  lemma {:induction false} HeadScan(ls: seq<string>)
    requires forall l :: l in ls ==> !KindOf(l).MetaLine?
    ensures ScanLines(Between(map[]), ls) == Between(map[])
  {
    hide KindOf;
    if ls != [] {
      assert forall l :: l in ls[..|ls| - 1] ==> l in ls;
      assert ls[|ls| - 1] in ls;
      HeadScan(ls[..|ls| - 1]);
    }
  }

  predicate HasMeta(p: PeerConf) {
    p.friendlyName != "" || p.created != "" || p.notes != ""
  }

  /** The metadata of a peer as it can be recovered: sanitized and trimmed. */
  function MetaOf(p: PeerConf): PeerMeta {
    PeerMeta(TrimSpace(Sanitize(p.friendlyName)), TrimSpace(p.created), TrimSpace(Sanitize(p.notes)))
  }

  lemma EmptyMeta()
    ensures TrimSpace(Sanitize("")) == "" && TrimSpace("") == ""
  {
  }

  lemma MetaScan(result: map<string, PeerMeta>, p: PeerConf)
    ensures ScanLines(Between(result), MetaLines(p))
         == if HasMeta(p) then Scan(MetaOf(p), true, result) else Between(result)
  {
    hide KindOf, Sanitize, TrimSpace, ScanLines;
    EmptyMeta();
    MetaKinds(p);
    var name := if p.friendlyName == "" then [] else ["# wg-sockd:name=" + Sanitize(p.friendlyName)];
    var created := Optional("# wg-sockd:created=", p.created);
    var notes := if p.notes == "" then [] else ["# wg-sockd:notes=" + Sanitize(p.notes)];
    var s0 := Between(result);
    ScanConcat(s0, name, created);
    ScanConcat(s0, name + created, notes);
    OneLineScan(s0, "# wg-sockd:name=" + Sanitize(p.friendlyName));
    var s1 := ScanLines(s0, name);
    OneLineScan(s1, "# wg-sockd:created=" + p.created);
    var s2 := ScanLines(s1, created);
    OneLineScan(s2, "# wg-sockd:notes=" + Sanitize(p.notes));
    NoScan(s0);
    NoScan(s1);
    NoScan(s2);
  }

  lemma NoScan(s: Scan)
    ensures ScanLines(s, []) == s
  {
  }

  lemma OneLineScan(s: Scan, line: string)
    ensures ScanLines(s, [line]) == ScanLine(s, line)
  {
    hide ScanLine;
    assert [line][..0] == [];
  }

  lemma {:induction false} BodyScan(result: map<string, PeerMeta>, ls: seq<string>)
    requires forall l :: l in ls ==> KindOf(l) == Other
    ensures ScanLines(Between(result), ls) == Between(result)
  {
    hide KindOf;
    if ls != [] {
      assert forall l :: l in ls[..|ls| - 1] ==> l in ls;
      assert ls[|ls| - 1] in ls;
      BodyScan(result, ls[..|ls| - 1]);
    }
  }

  function Recorded(result: map<string, PeerMeta>, p: PeerConf): map<string, PeerMeta> {
    if HasMeta(p) then result[TrimSpace(p.publicKey) := MetaOf(p)] else result
  }

  lemma PeerScan(result: map<string, PeerMeta>, p: PeerConf)
    ensures ScanLines(Between(result), PeerLines(p)) == Between(Recorded(result, p))
  {
    hide KindOf, MetaLines, BodyLines, ScanLines, TrimSpace, MetaOf, HasMeta;
    BlankKind();
    HeaderKind();
    KeyKind(p.publicKey);
    BodyKinds(p);
    var s0 := Between(result);
    OneLineScan(s0, "");
    MetaScan(result, p);
    var s1 := ScanLines(s0, MetaLines(p));
    OneLineScan(s1, "[Peer]");
    var s2 := ScanLine(s1, "[Peer]");
    OneLineScan(s2, "PublicKey = " + p.publicKey);
    BodyScan(Recorded(result, p), BodyLines(p));
    var a := [""] + MetaLines(p);
    ScanConcat(s0, [""], MetaLines(p));
    ScanConcat(s0, a, ["[Peer]"]);
    ScanConcat(s0, a + ["[Peer]"], ["PublicKey = " + p.publicKey]);
    ScanConcat(s0, a + ["[Peer]"] + ["PublicKey = " + p.publicKey], BodyLines(p));
    assert PeerLines(p) == a + ["[Peer]"] + ["PublicKey = " + p.publicKey] + BodyLines(p);
  }

  function AllRecorded(ps: seq<PeerConf>): map<string, PeerMeta> {
    if ps == [] then map[] else Recorded(AllRecorded(ps[..|ps| - 1]), ps[|ps| - 1])
  }

  lemma {:induction false} PeersScan(ps: seq<PeerConf>)
    ensures ScanLines(Between(map[]), AllPeerLines(ps)) == Between(AllRecorded(ps))
  {
    hide KindOf, PeerLines, ScanLines, Recorded;
    NoScan(Between(map[]));
    if ps != [] {
      var n := |ps| - 1;
      PeersScan(ps[..n]);
      ScanConcat(Between(map[]), AllPeerLines(ps[..n]), PeerLines(ps[n]));
      PeerScan(AllRecorded(ps[..n]), ps[n]);
    }
  }

  /** No metadata comment stands before [Interface]. */
  ghost predicate NoStrayMeta(file: Option<string>) {
    forall l :: l in Collected(file).pre ==> !KindOf(l).MetaLine?
  }

  lemma CommentsOf(file: Option<string>, ps: seq<PeerConf>)
    requires AllWritable(ps) && NoStrayMeta(file)
    ensures Comments(Written(file, ps)) == AllRecorded(ps)
  {
    hide KindOf, AllPeerLines, ScanLines, DropBlank, AllWritable, Written, Split, JoinLines, Collected, AllRecorded;
    var head := HeadLines(file);
    var ls := head + AllPeerLines(ps);
    WrittenLines(file, ps);
    HeadSteps(file);
    AllPeerLinesClean(ps);
    SplitJoin(ls);
    HeadHasNoMeta(file);
    HeadScan(head);
    PeersScan(ps);
    ScanConcat(Between(map[]), head, AllPeerLines(ps));
    ScanConcat(Between(map[]), ls, [""]);
    OneLineScan(Between(AllRecorded(ps)), "");
    BlankKind();
  }

  lemma HeadHasNoMeta(file: Option<string>)
    requires NoStrayMeta(file)
    ensures forall l :: l in HeadLines(file) ==> !KindOf(l).MetaLine?
  {
    hide KindOf, DropBlank, Collected, PlainLines;
    CollectedShaped(file);
    PrefixOf(DropBlank(Collected(file).pre), Collected(file).pre);
    PrefixOf(DropBlank(Collected(file).iface), Collected(file).iface);
  }

  ghost predicate DistinctKeys(ps: seq<PeerConf>) {
    forall i, j :: 0 <= i < j < |ps| ==> TrimSpace(ps[i].publicKey) != TrimSpace(ps[j].publicKey)
  }

  lemma {:induction false} RecordedExactly(ps: seq<PeerConf>, key: string)
    requires DistinctKeys(ps)
    ensures key in AllRecorded(ps) <==> exists p :: p in ps && HasMeta(p) && TrimSpace(p.publicKey) == key
    ensures forall p :: p in ps && HasMeta(p) && TrimSpace(p.publicKey) == key ==>
      key in AllRecorded(ps) && AllRecorded(ps)[key] == MetaOf(p)
  {
    hide HasMeta, MetaOf, TrimSpace;
    if ps != [] {
      var n := |ps| - 1;
      RecordedExactly(ps[..n], key);
      assert ps == ps[..n] + [ps[n]];
      forall p | p in ps[..n] ensures TrimSpace(p.publicKey) != TrimSpace(ps[n].publicKey) {
        var i :| 0 <= i < n && ps[i] == p;
      }
      assert ps[n] in ps;
      assert forall p :: p in ps <==> p in ps[..n] || p == ps[n];
    }
  }

  /**
   * Disaster recovery: from a written file the scanner recovers exactly the peers that have some
   * metadata, each under its key with its sanitized and trimmed name, creation time and notes.
   */
  lemma MetadataRoundTrip(file: Option<string>, ps: seq<PeerConf>, key: string)
    requires AllWritable(ps) && NoStrayMeta(file) && DistinctKeys(ps)
    ensures var found := Comments(Written(file, ps));
      && (key in found <==> exists p :: p in ps && HasMeta(p) && TrimSpace(p.publicKey) == key)
      && (forall p :: p in ps && HasMeta(p) && TrimSpace(p.publicKey) == key ==>
            key in found && found[key] == MetaOf(p))
  {
    hide Written, Comments, AllRecorded, HasMeta, MetaOf, TrimSpace, NoStrayMeta, AllWritable, DistinctKeys;
    CommentsOf(file, ps);
    RecordedExactly(ps, key);
  }
}
