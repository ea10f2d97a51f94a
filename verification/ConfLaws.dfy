/** Laws of the conf file: what a write keeps, and what can be read back. */
module ConfLaws {
  import opened Text
  import opened TextLaws
  import opened ConfFile
  import opened ConfKinds

  predicate OneLine(s: string) {
    '\n' !in s
  }

  /** The text fields that WriteConf copies verbatim hold no newline; names and notes are sanitized instead. */
  predicate Writable(p: PeerConf) {
    && OneLine(p.publicKey) && OneLine(p.allowedIPs) && OneLine(p.presharedKey)
    && OneLine(p.endpoint) && OneLine(p.created)
  }

  ghost predicate AllWritable(ps: seq<PeerConf>) {
    forall p :: p in ps ==> Writable(p)
  }

  ghost predicate AllOneLine(ls: seq<string>) {
    forall l :: l in ls ==> OneLine(l)
  }

  // ---------------------------------------------------------------- lines and texts

  lemma {:induction false} SplitJoin(ls: seq<string>)
    requires AllOneLine(ls)
    ensures Split(JoinLines(ls), '\n') == ls + [""]
  {
    if ls != [] {
      assert ls[0] in ls;
      assert forall l :: l in ls[1..] ==> l in ls;
      SplitJoin(ls[1..]);
      SplitAt(ls[0], JoinLines(ls[1..]), '\n');
      assert [ls[0]] + (ls[1..] + [""]) == ls + [""];
    }
  }

  function DropBlank(ls: seq<string>): (r: seq<string>)
    ensures r <= ls
    ensures r != [] ==> r[|r| - 1] != ""
  {
    if ls != [] && ls[|ls| - 1] == "" then DropBlank(ls[..|ls| - 1]) else ls
  }

  /** Trimming newlines off the text drops the blank lines at its end. */
  lemma {:induction false} TrimJoined(ls: seq<string>)
    requires AllOneLine(ls)
    ensures Line(TrimNewlines(JoinLines(ls))) == JoinLines(DropBlank(ls))
    ensures TrimNewlines(JoinLines(ls)) == "" <==> DropBlank(ls) == []
  {
    if ls != [] {
      var n := |ls| - 1;
      assert forall l :: l in ls[..n] ==> l in ls;
      assert ls == ls[..n] + [ls[n]];
      JoinSnoc(ls[..n], ls[n]);
      TrimOne(JoinLines(ls[..n]), ls[n]);
      if ls[n] == "" {
        TrimJoined(ls[..n]);
      } else {
        assert ls[n] in ls;
      }
    }
  }

  lemma TrimOne(head: string, l: string)
    requires OneLine(l)
    ensures TrimNewlines(head + l + "\n") == if l == "" then TrimNewlines(head) else head + l
  {
    var text := head + l + "\n";
    assert text[..|text| - 1] == head + l;
    if l == "" {
      assert head + l == head;
    } else {
      assert (head + l)[|head + l| - 1] == l[|l| - 1] && l[|l| - 1] in l;
    }
  }

  lemma DropBlankSnoc(ls: seq<string>)
    ensures DropBlank(ls + [""]) == DropBlank(ls)
  {
    assert (ls + [""])[..|ls|] == ls;
  }

  lemma DropBlankTwice(ls: seq<string>)
    ensures DropBlank(DropBlank(ls)) == DropBlank(ls)
  {
  }

  lemma {:induction false} StepsConcat(st: State, a: seq<string>, b: seq<string>)
    ensures Steps(st, a + b) == Steps(Steps(st, a), b)
  {
    hide Step;
    if b == [] {
      assert a + b == a;
    } else {
      var n := |b| - 1;
      assert (a + b)[..|a| + n] == a + b[..n];
      StepsConcat(st, a, b[..n]);
    }
  }

  // ---------------------------------------------------------------- what the parser collects

  ghost predicate PlainLines(ls: seq<string>) {
    forall l :: l in ls ==> KindOf(l) != InterfaceHeader && KindOf(l) != PeerHeader
  }

  /** Lines an interface section can hold: it begins with its header, and has no metadata. */
  ghost predicate InterfaceLines(ls: seq<string>) {
    && (forall l :: l in ls ==> KindOf(l) != PeerHeader && !KindOf(l).MetaLine?)
    && (ls != [] ==> KindOf(ls[0]) == InterfaceHeader)
  }

  ghost predicate Shaped(st: State) {
    && PlainLines(st.pre) && InterfaceLines(st.iface)
    && AllOneLine(st.pre) && AllOneLine(st.iface)
    && (st.cur == InInterface <==> st.iface != [] && st.peer == [])
    && (st.cur == InPre ==> st.iface == [] && st.peer == [] && st.peers == [])
    && (st.cur == InPeer ==> st.peer != [])
    && (st.cur != InPeer ==> st.key == "")
  }

  lemma StepShaped(st: State, line: string)
    requires Shaped(st) && OneLine(line)
    ensures Shaped(Step(st, line))
  {
    hide KindOf;
  }

  lemma StepsShaped(ls: seq<string>)
    requires AllOneLine(ls)
    ensures Shaped(Steps(START, ls))
  {
    StartShaped();
    StepsKeepShape(START, ls);
  }

  lemma StartShaped()
    ensures Shaped(START)
  {
  }

  /** What the parser collected from a file; START for an absent or empty one. */
  function Collected(file: Option<string>): State {
    if file.None? || file.value == "" then START else Steps(START, Split(file.value, '\n'))
  }

  lemma CollectedShaped(file: Option<string>)
    ensures Shaped(Collected(file))
  {
    hide Steps, Shaped;
    StartShaped();
    if file.Some? {
      SplitPieces(file.value, '\n');
      StepsShaped(Split(file.value, '\n'));
    }
  }

  predicate HasHeader(ls: seq<string>) {
    exists l :: l in ls && KindOf(l) == InterfaceHeader
  }

  /** The file has a line that reads [Interface]. */
  predicate HasInterface(file: Option<string>) {
    file.Some? && HasHeader(Split(file.value, '\n'))
  }

  /** Wherever it stands, also after peers, the parser collects that line. */
  lemma {:induction false} HeaderCollected(ls: seq<string>)
    ensures Steps(START, ls).iface != [] <==> HasHeader(ls)
    ensures Steps(START, ls).cur == InInterface ==> HasHeader(ls)
  {
    hide KindOf;
    if ls != [] {
      var n := |ls| - 1;
      HeaderCollected(ls[..n]);
      assert ls == ls[..n] + [ls[n]];
      assert HasHeader(ls) <==> HasHeader(ls[..n]) || KindOf(ls[n]) == InterfaceHeader;
    }
  }

  lemma InterfaceIff(file: Option<string>)
    ensures HasInterface(file) <==> Collected(file).iface != []
  {
    hide KindOf, Steps;
    if file == Some("") {
      BlankKind();
    } else if file.Some? {
      HeaderCollected(Split(file.value, '\n'));
    }
  }

  // ---------------------------------------------------------------- the lines of a written file

  function HeadLines(file: Option<string>): seq<string> {
    DropBlank(Collected(file).pre) + DropBlank(Collected(file).iface)
  }

  lemma WrittenLines(file: Option<string>, ps: seq<PeerConf>)
    ensures Written(file, ps) == JoinLines(HeadLines(file) + AllPeerLines(ps))
    ensures ParseFile(file).pre == "" <==> DropBlank(Collected(file).pre) == []
    ensures ParseFile(file).iface == "" <==> DropBlank(Collected(file).iface) == []
    ensures HasInterface(file) <==> ParseFile(file).iface != ""
    ensures HasInterface(file) <==> Collected(file).iface != []
  {
    hide Steps, Step, AllPeerLines, JoinLines, Split, KindOf, TrimNewlines, DropBlank, HasInterface;
    InterfaceIff(file);
    var st := Collected(file);
    CollectedShaped(file);
    TrimJoined(st.pre);
    TrimJoined(st.iface);
    JoinConcat(HeadLines(file), AllPeerLines(ps));
    JoinConcat(DropBlank(st.pre), DropBlank(st.iface));
    EmptyBuffers();
    TrimEmpty();
    HeaderStays(st.iface);
  }

  lemma TrimEmpty()
    ensures TrimNewlines("") == ""
  {
  }

  /** An interface section begins with its header, which is no blank line. */
  lemma HeaderStays(ls: seq<string>)
    requires InterfaceLines(ls)
    ensures DropBlank(ls) == [] <==> ls == []
    ensures InterfaceLines(DropBlank(ls))
  {
    hide KindOf;
    BlankKind();
    if ls != [] {
      KeepsFirst(ls);
    }
  }

  lemma {:induction false} KeepsFirst(ls: seq<string>)
    requires ls != [] && ls[0] != ""
    ensures DropBlank(ls) != [] && DropBlank(ls)[0] == ls[0]
  {
    if |ls| > 1 && ls[|ls| - 1] == "" {
      KeepsFirst(ls[..|ls| - 1]);
    }
  }

  lemma MetaLinesClean(p: PeerConf)
    requires OneLine(p.created)
    ensures AllOneLine(MetaLines(p))
  {
    hide Sanitize;
    var a, b, c := "# wg-sockd:name=" + Sanitize(p.friendlyName), "# wg-sockd:created=" + p.created,
                   "# wg-sockd:notes=" + Sanitize(p.notes);
    assert OneLine(a) && OneLine(b) && OneLine(c);
    assert forall l :: l in MetaLines(p) ==> l == a || l == b || l == c;
  }

  lemma BodyLinesClean(p: PeerConf)
    requires Writable(p)
    ensures AllOneLine(BodyLines(p))
  {
    hide Decimal;
    var a, b, c := "AllowedIPs = " + p.allowedIPs, "PresharedKey = " + p.presharedKey, "Endpoint = " + p.endpoint;
    var d := "PersistentKeepalive = " + Decimal(if p.keepalive > 0 then p.keepalive else 0);
    DecimalDigits(if p.keepalive > 0 then p.keepalive else 0);
    assert OneLine(a) && OneLine(b) && OneLine(c) && OneLine(d);
    assert forall l :: l in BodyLines(p) ==> l == a || l == b || l == c || l == d;
  }

  lemma PeerLinesClean(p: PeerConf)
    requires Writable(p)
    ensures AllOneLine(PeerLines(p))
  {
    hide MetaLines, BodyLines;
    MetaLinesClean(p);
    BodyLinesClean(p);
    assert OneLine("PublicKey = " + p.publicKey);
  }

  lemma {:induction false} AllPeerLinesClean(ps: seq<PeerConf>)
    requires AllWritable(ps)
    ensures AllOneLine(AllPeerLines(ps))
  {
    hide PeerLines, Writable;
    if ps != [] {
      var n := |ps| - 1;
      assert forall p :: p in ps[..n] ==> p in ps;
      assert ps[n] in ps;
      AllPeerLinesClean(ps[..n]);
      PeerLinesClean(ps[n]);
    }
  }

  // ---------------------------------------------------------------- reading a written file

  lemma {:induction false} PlainSteps(ls: seq<string>)
    requires PlainLines(ls)
    ensures Steps(START, ls) == START.(pre := ls)
  {
    hide KindOf;
    if ls != [] {
      var n := |ls| - 1;
      assert forall l :: l in ls[..n] ==> l in ls;
      assert ls[n] in ls;
      PlainSteps(ls[..n]);
      assert ls == ls[..n] + [ls[n]];
    }
  }

  lemma InterfaceStep(st: State, line: string)
    requires KindOf(line) != PeerHeader && !KindOf(line).MetaLine? && st.cur != InPeer
    requires st.cur == InInterface || KindOf(line) == InterfaceHeader
    ensures Step(st, line) == st.(cur := InInterface, iface := st.iface + [line])
  {
    hide KindOf;
  }

  lemma {:induction false} InterfaceSteps(st: State, ls: seq<string>)
    requires InterfaceLines(ls) && ls != [] && st.cur == InPre && st.iface == []
    ensures Steps(st, ls) == st.(cur := InInterface, iface := ls)
  {
    hide KindOf, Step;
    var n := |ls| - 1;
    assert ls == ls[..n] + [ls[n]];
    assert ls[n] in ls;
    if n == 0 {
      assert [] + [ls[0]] == ls;
      InterfaceStep(st, ls[0]);
    } else {
      assert forall l :: l in ls[..n] ==> l in ls;
      InterfaceSteps(st, ls[..n]);
      InterfaceStep(Steps(st, ls[..n]), ls[n]);
    }
  }

  function KeysOf(peers: seq<ConfPeer>): seq<string> {
    seq(|peers|, i requires 0 <= i < |peers| => peers[i].publicKey)
  }

  /** The keys of the sections closed so far, and of the one that is open. */
  function KeysRead(st: State): seq<string> {
    KeysOf(FlushPeer(st).peers)
  }

  lemma {:induction false} MetaSteps(st: State, ls: seq<string>)
    requires forall l :: l in ls ==> KindOf(l).MetaLine?
    ensures Steps(st, ls) ==
      if st.cur == InPre then st.(pre := st.pre + ls)
      else if st.cur == InInterface then st
      else st.(peer := st.peer + ls)
  {
    hide KindOf;
    if ls == [] {
      assert st.pre + [] == st.pre && st.peer + [] == st.peer;
    } else {
      var n := |ls| - 1;
      assert forall l :: l in ls[..n] ==> l in ls;
      assert ls[n] in ls;
      MetaSteps(st, ls[..n]);
      assert st.pre + ls == st.pre + ls[..n] + [ls[n]];
      assert st.peer + ls == st.peer + ls[..n] + [ls[n]];
    }
  }

  lemma {:induction false} BodySteps(st: State, ls: seq<string>)
    requires st.cur == InPeer && forall l :: l in ls ==> KindOf(l) == Other
    ensures Steps(st, ls) == st.(peer := st.peer + ls)
  {
    hide KindOf;
    if ls == [] {
      assert st.peer + [] == st.peer;
    } else {
      var n := |ls| - 1;
      assert forall l :: l in ls[..n] ==> l in ls;
      assert ls[n] in ls;
      BodySteps(st, ls[..n]);
      assert st.peer + ls == st.peer + ls[..n] + [ls[n]];
    }
  }

  /** A blank line and the metadata before a [Peer] header. */
  function BeforePeer(st: State, p: PeerConf): State {
    if st.cur == InPre then st.(pre := st.pre + [""] + MetaLines(p))
    else if st.cur == InInterface then st.(iface := st.iface + [""])
    else st.(peer := st.peer + [""] + MetaLines(p))
  }

  lemma BlankStep(st: State)
    ensures Step(st, "")
         == if st.cur == InPre then st.(pre := st.pre + [""])
            else if st.cur == InInterface then st.(iface := st.iface + [""])
            else st.(peer := st.peer + [""])
  {
    hide KindOf;
    BlankKind();
  }

  /** [Peer] closes the section that is open, if any. */
  lemma PeerHeaderStep(st: State)
    requires st.cur == InPeer <==> st.peer != []
    ensures var s' := Step(st, "[Peer]");
      && s'.cur == InPeer && s'.peer == ["[Peer]"] && s'.pre == st.pre && s'.iface == st.iface
      && s'.peers == FlushPeer(st).peers
  {
    hide KindOf;
    HeaderKind();
  }

  lemma KeyStep(st: State, key: string)
    requires st.cur == InPeer
    ensures Step(st, "PublicKey = " + key) == st.(peer := st.peer + ["PublicKey = " + key], key := TrimSpace(key))
  {
    hide KindOf, TrimSpace;
    KeyKind(key);
  }

  /** One written section: it closes the previous one and is read back under its own key. */
  lemma OnePeer(st: State, p: PeerConf)
    requires st.cur == InPeer <==> st.peer != []
    ensures var s' := Steps(st, PeerLines(p));
      && s'.cur == InPeer && s'.peer != [] && s'.key == TrimSpace(p.publicKey)
      && s'.pre == BeforePeer(st, p).pre && s'.iface == BeforePeer(st, p).iface
      && s'.peer == ["[Peer]", "PublicKey = " + p.publicKey] + BodyLines(p)
      && s'.peers == FlushPeer(BeforePeer(st, p)).peers && KeysOf(s'.peers) == KeysRead(st)
  {
    hide KindOf, MetaLines, BodyLines, TrimSpace, Step, Steps, FlushPeer;
    MetaKinds(p);
    BodyKinds(p);
    BlankStep(st);
    var s1 := Step(st, "");
    SingleStep(st, "");
    MetaSteps(s1, MetaLines(p));
    var s2 := BeforePeer(st, p);
    assert Steps(s1, MetaLines(p)) == s2;
    PeerHeaderStep(s2);
    SingleStep(s2, "[Peer]");
    var s3 := Step(s2, "[Peer]");
    KeyStep(s3, p.publicKey);
    SingleStep(s3, "PublicKey = " + p.publicKey);
    var s4 := Step(s3, "PublicKey = " + p.publicKey);
    BodySteps(s4, BodyLines(p));
    var a := [""] + MetaLines(p);
    StepsConcat(st, [""], MetaLines(p));
    StepsConcat(st, a, ["[Peer]"]);
    StepsConcat(st, a + ["[Peer]"], ["PublicKey = " + p.publicKey]);
    StepsConcat(st, a + ["[Peer]"] + ["PublicKey = " + p.publicKey], BodyLines(p));
    assert PeerLines(p) == a + ["[Peer]"] + ["PublicKey = " + p.publicKey] + BodyLines(p);
    SameKeysRead(st, p);
  }

  /** Lines added to an open section do not change the keys read. */
  lemma SameKeysRead(st: State, p: PeerConf)
    requires st.cur == InPeer <==> st.peer != []
    ensures KeysRead(BeforePeer(st, p)) == KeysRead(st)
  {
    hide MetaLines, JoinLines;
  }

  lemma SingleStep(st: State, line: string)
    ensures Steps(st, [line]) == Step(st, line)
  {
    hide Step;
    assert [line][..0] == [];
  }

  function WrittenKeys(ps: seq<PeerConf>): seq<string> {
    seq(|ps|, i requires 0 <= i < |ps| => TrimSpace(ps[i].publicKey))
  }

  /** Any number of written sections, in the order written. */
  lemma {:induction false} PeerSteps(st: State, ps: seq<PeerConf>)
    requires st.cur != InPre && (st.cur == InPeer <==> st.peer != [])
    ensures var s' := Steps(st, AllPeerLines(ps));
      && s'.cur != InPre && (s'.cur == InPeer <==> s'.peer != [])
      && s'.pre == st.pre && DropBlank(s'.iface) == DropBlank(st.iface)
      && KeysRead(s') == KeysRead(st) + WrittenKeys(ps)
  {
    hide Step, KindOf, PeerLines, TrimSpace, KeysRead, KeysOf, Steps, DropBlank;
    if ps == [] {
      assert Steps(st, []) == st by { NoSteps(st); }
      assert KeysRead(st) + [] == KeysRead(st);
    } else {
      var n := |ps| - 1;
      PeerSteps(st, ps[..n]);
      var s1 := Steps(st, AllPeerLines(ps[..n]));
      StepsConcat(st, AllPeerLines(ps[..n]), PeerLines(ps[n]));
      OnePeer(s1, ps[n]);
      DropBlankSnoc(s1.iface);
      FlushKeys(Steps(s1, PeerLines(ps[n])));
      assert WrittenKeys(ps) == WrittenKeys(ps[..n]) + [TrimSpace(ps[n].publicKey)];
    }
  }

  lemma NoSteps(st: State)
    ensures Steps(st, []) == st
  {
  }

  lemma FlushKeys(st: State)
    requires st.peer != []
    ensures KeysRead(st) == KeysOf(st.peers) + [st.key]
  {
  }

  lemma {:induction false} StepsKeepShape(st: State, ls: seq<string>)
    requires Shaped(st) && AllOneLine(ls)
    ensures Shaped(Steps(st, ls))
  {
    hide KindOf, Step, Shaped;
    if ls != [] {
      var n := |ls| - 1;
      assert forall l :: l in ls[..n] ==> l in ls;
      assert ls[n] in ls;
      StepsKeepShape(st, ls[..n]);
      StepShaped(Steps(st, ls[..n]), ls[n]);
    }
  }
}
