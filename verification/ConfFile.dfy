/** wg0.conf: the line-oriented parser, the writer that keeps [Interface], and the metadata scanner. */
module ConfFile {
  import opened Text

  datatype PeerConf = PeerConf(
    publicKey: string,
    allowedIPs: string,
    presharedKey: string,
    friendlyName: string,
    created: string,          // RFC 3339 text, empty for the zero time
    notes: string,
    endpoint: string,
    keepalive: int)

  datatype ConfPeer = ConfPeer(publicKey: string, rawLines: string)

  datatype Conf = Conf(pre: string, iface: string, peers: seq<ConfPeer>)

  datatype PeerMeta = PeerMeta(name: string, created: string, notes: string)

  // ---------------------------------------------------------------- lines

  function JoinLines(ls: seq<string>): string {
    if ls == [] then "" else ls[0] + "\n" + JoinLines(ls[1..])
  }

  /** strings.TrimRight(s, "\n"). */
  function TrimNewlines(s: string): string {
    if s != "" && s[|s| - 1] == '\n' then TrimNewlines(s[..|s| - 1]) else s
  }

  /** What both parsers look at in a line, after trimming. */
  datatype Kind =
    | InterfaceHeader
    | PeerHeader
    | MetaLine(entry: Option<(string, string)>)   // "# wg-sockd:key=value", split and trimmed
    | KeyLine(key: Option<string>)                // "PublicKey = value"
    | Quiet                                       // blank, or another comment
    | Other

  const META := "# wg-sockd:"

  function KindOf(line: string): Kind {
    var t := TrimSpace(line);
    if t == "[Interface]" then InterfaceHeader
    else if t == "[Peer]" then PeerHeader
    else if HasPrefix(t, META) then
      var kv := SplitEq(t[|META|..]);
      MetaLine(if kv.Some? then Some((TrimSpace(kv.value.0), TrimSpace(kv.value.1))) else None)
    else if HasPrefix(t, "PublicKey") then
      var kv := SplitEq(t);
      KeyLine(if kv.Some? then Some(TrimSpace(kv.value.1)) else None)
    else if t == "" || HasPrefix(t, "#") then Quiet
    else Other
  }

  // ---------------------------------------------------------------- ParseConf

  datatype Section = InPre | InInterface | InPeer

  /** The parser's variables; the string builders are kept as the lines written to them. */
  datatype State = State(cur: Section, pre: seq<string>, iface: seq<string>, peer: seq<string>, key: string,
                         peers: seq<ConfPeer>)

  const START := State(InPre, [], [], [], "", [])

  function FlushPeer(st: State): State {
    if st.peer == [] then st
    else st.(peers := st.peers + [ConfPeer(st.key, JoinLines(st.peer))], peer := [], key := "")
  }

  function Step(st: State, line: string): State {
    match KindOf(line)
    case InterfaceHeader =>
      var s := if st.cur == InPeer then FlushPeer(st) else st;
      s.(cur := InInterface, iface := s.iface + [line])
    case PeerHeader =>
      var s := if st.cur == InPeer then FlushPeer(st) else st;
      s.(cur := InPeer, peer := s.peer + [line])
    case kind =>
      if st.cur == InPre then st.(pre := st.pre + [line])
      else if st.cur == InInterface then
        if kind.MetaLine? then st else st.(iface := st.iface + [line])
      else
        st.(peer := st.peer + [line], key := if kind.KeyLine? && kind.key.Some? then kind.key.value else st.key)
  }

  function Steps(st: State, ls: seq<string>): State {
    if ls == [] then st else Step(Steps(st, ls[..|ls| - 1]), ls[|ls| - 1])
  }

  function Parse(content: string): Conf {
    if content == "" then Conf("", "", [])
    else
      var st := FlushPeer(Steps(START, Split(content, '\n')));
      Conf(TrimNewlines(JoinLines(st.pre)), TrimNewlines(JoinLines(st.iface)), st.peers)
  }

  /** An absent file parses as an empty one. */
  function ParseFile(file: Option<string>): Conf {
    if file.None? then Conf("", "", []) else Parse(file.value)
  }

  // ---------------------------------------------------------------- WriteConf

  /** sanitizeConfValue. */
  function Sanitize(s: string): (r: string)
    ensures '\n' !in r && '\r' !in r
  {
    if s == "" then ""
    else (if s[0] == '\n' then " " else if s[0] == '\r' then "" else [s[0]]) + Sanitize(s[1..])
  }

  function Optional(field: string, value: string): seq<string> {
    if value == "" then [] else [field + value]
  }

  function MetaLines(p: PeerConf): seq<string> {
    (if p.friendlyName == "" then [] else ["# wg-sockd:name=" + Sanitize(p.friendlyName)])
    + Optional("# wg-sockd:created=", p.created)
    + (if p.notes == "" then [] else ["# wg-sockd:notes=" + Sanitize(p.notes)])
  }

  function BodyLines(p: PeerConf): seq<string> {
    ["AllowedIPs = " + p.allowedIPs]
    + Optional("PresharedKey = ", p.presharedKey)
    + Optional("Endpoint = ", p.endpoint)
    + (if p.keepalive > 0 then ["PersistentKeepalive = " + Decimal(p.keepalive)] else [])
  }

  function PeerLines(p: PeerConf): seq<string> {
    [""] + MetaLines(p) + ["[Peer]", "PublicKey = " + p.publicKey] + BodyLines(p)
  }

  function AllPeerLines(ps: seq<PeerConf>): seq<string> {
    if ps == [] then [] else AllPeerLines(ps[..|ps| - 1]) + PeerLines(ps[|ps| - 1])
  }

  function Line(text: string): string {
    if text == "" then "" else text + "\n"
  }

  /** The file WriteConf leaves behind. */
  function Written(file: Option<string>, ps: seq<PeerConf>): string {
    var conf := ParseFile(file);
    Line(conf.pre) + Line(conf.iface) + JoinLines(AllPeerLines(ps))
  }

  // ---------------------------------------------------------------- ParseConfComments

  datatype Scan = Scan(meta: PeerMeta, has: bool, result: map<string, PeerMeta>)

  const NO_META := PeerMeta("", "", "")

  function SetMeta(m: PeerMeta, entry: (string, string)): PeerMeta {
    if entry.0 == "name" then m.(name := entry.1)
    else if entry.0 == "created" then m.(created := entry.1)
    else if entry.0 == "notes" then m.(notes := entry.1)
    else m
  }

  function ScanLine(s: Scan, line: string): Scan {
    match KindOf(line)
    case MetaLine(entry) => if entry.Some? then s.(meta := SetMeta(s.meta, entry.value), has := true) else s
    case KeyLine(key) =>
      if s.has then Scan(NO_META, false, if key.Some? then s.result[key.value := s.meta] else s.result) else s
    case PeerHeader => if s.has then s else s.(meta := NO_META)
    case Other => s.(has := false)
    case _ => s
  }

  function ScanLines(s: Scan, ls: seq<string>): Scan {
    if ls == [] then s else ScanLine(ScanLines(s, ls[..|ls| - 1]), ls[|ls| - 1])
  }

  function Comments(content: string): map<string, PeerMeta> {
    ScanLines(Scan(NO_META, false, map[]), Split(content, '\n')).result
  }

  // ---------------------------------------------------------------- the loops

  lemma {:induction false} JoinConcat(a: seq<string>, b: seq<string>)
    ensures JoinLines(a + b) == JoinLines(a) + JoinLines(b)
  {
    if a == [] {
      assert a + b == b;
    } else {
      assert (a + b)[1..] == a[1..] + b;
      JoinConcat(a[1..], b);
    }
  }

  lemma JoinSnoc(a: seq<string>, l: string)
    ensures JoinLines(a + [l]) == JoinLines(a) + l + "\n"
  {
    JoinConcat(a, [l]);
  }

  method ParseConf(file: Option<string>) returns (conf: Conf)
    ensures conf == ParseFile(file)
  {
    hide KindOf, JoinLines, TrimNewlines, Split;
    if file.None? || file.value == "" {
      return Conf("", "", []);
    }
    var lines := Split(file.value, '\n');
    var cur, key, peers := InPre, "", [];
    var preBuf, ifaceBuf, peerBuf := "", "", "";
    ghost var st := START;
    EmptyBuffers();
    for i := 0 to |lines|
      invariant st == Steps(START, lines[..i])
      invariant cur == st.cur && key == st.key && peers == st.peers
      invariant preBuf == JoinLines(st.pre) && ifaceBuf == JoinLines(st.iface) && peerBuf == JoinLines(st.peer)
    {
      var line := lines[i];
      assert lines[..i + 1][..i] == lines[..i];
      var kind := KindOf(line);
      JoinSnoc(st.pre, line);
      JoinSnoc(st.iface, line);
      JoinSnoc(st.peer, line);
      FlushedBuffer(st, line);
      if kind == InterfaceHeader || kind == PeerHeader {
        if cur == InPeer {
          if |peerBuf| > 0 {
            peers := peers + [ConfPeer(key, peerBuf)];
            peerBuf, key := "", "";
          }
        }
        if kind == InterfaceHeader {
          cur, ifaceBuf := InInterface, ifaceBuf + line + "\n";
        } else {
          cur, peerBuf := InPeer, peerBuf + line + "\n";
        }
      } else if cur == InPre {
        preBuf := preBuf + line + "\n";
      } else if cur == InInterface {
        if !kind.MetaLine? {
          ifaceBuf := ifaceBuf + line + "\n";
        }
      } else {
        peerBuf := peerBuf + line + "\n";
        if kind.KeyLine? && kind.key.Some? {
          key := kind.key.value;
        }
      }
      st := Step(st, line);
    }
    assert lines[..|lines|] == lines;
    FlushedBuffer(st, "");
    if |peerBuf| > 0 {
      peers := peers + [ConfPeer(key, peerBuf)];
    }
    conf := Conf(TrimNewlines(preBuf), TrimNewlines(ifaceBuf), peers);
  }

  lemma EmptyBuffers()
    ensures JoinLines([]) == ""
  {
  }

  /** A peer buffer is empty exactly when no line was written to it. */
  lemma FlushedBuffer(st: State, line: string)
    ensures |JoinLines(st.peer)| > 0 <==> st.peer != []
    ensures JoinLines([line]) == "" + line + "\n"
    ensures [] + [line] == [line]
  {
    assert JoinLines([]) == "";
  }

  method WriteConf(file: Option<string>, ps: seq<PeerConf>) returns (content: string)
    ensures content == Written(file, ps)
  {
    hide ParseFile, PeerLines, JoinLines;
    var existing := ParseConf(file);
    var head := "";
    if existing.pre != "" {
      head := head + (existing.pre + "\n");
    }
    if existing.iface != "" {
      head := head + (existing.iface + "\n");
    }
    var buf := WriteAll(ps);
    content := head + buf;
  }

  /** Appends one line to a buffer; `ls` are the lines written so far. */
  method Emit(buf: string, ghost ls: seq<string>, line: string) returns (r: string)
    requires buf == JoinLines(ls)
    ensures r == JoinLines(ls + [line])
  {
    JoinSnoc(ls, line);
    r := buf + line + "\n";
  }

  method WriteAll(ps: seq<PeerConf>) returns (buf: string)
    ensures buf == JoinLines(AllPeerLines(ps))
  {
    hide PeerLines, JoinLines;
    EmptyBuffers();
    buf := "";
    for i := 0 to |ps|
      invariant buf == JoinLines(AllPeerLines(ps[..i]))
    {
      assert ps[..i + 1][..i] == ps[..i];
      buf := WritePeer(buf, AllPeerLines(ps[..i]), ps[i]);
    }
    assert ps[..|ps|] == ps;
  }

  method WritePeer(start: string, ghost ls: seq<string>, p: PeerConf) returns (buf: string)
    requires start == JoinLines(ls)
    ensures buf == JoinLines(ls + PeerLines(p))
  {
    hide JoinLines, Sanitize, BodyLines, MetaLines;
    buf := Emit(start, ls, "");
    buf := WriteMeta(buf, ls + [""], p);
    ghost var now := ls + [""] + MetaLines(p);
    buf := Emit(buf, now, "[Peer]");
    buf := Emit(buf, now + ["[Peer]"], "PublicKey = " + p.publicKey);
    buf := WriteBody(buf, now + ["[Peer]"] + ["PublicKey = " + p.publicKey], p);
    assert now + ["[Peer]"] + ["PublicKey = " + p.publicKey] + BodyLines(p) == ls + PeerLines(p);
  }

  method WriteMeta(start: string, ghost ls: seq<string>, p: PeerConf) returns (buf: string)
    requires start == JoinLines(ls)
    ensures buf == JoinLines(ls + MetaLines(p))
  {
    hide JoinLines, Sanitize;
    buf := start;
    ghost var now := ls;
    if p.friendlyName != "" {
      var line := "# wg-sockd:name=" + Sanitize(p.friendlyName);
      buf := Emit(buf, now, line);
      now := now + [line];
    }
    if p.created != "" {
      var line := "# wg-sockd:created=" + p.created;
      buf := Emit(buf, now, line);
      now := now + [line];
    }
    if p.notes != "" {
      var line := "# wg-sockd:notes=" + Sanitize(p.notes);
      buf := Emit(buf, now, line);
      now := now + [line];
    }
    assert now == ls + MetaLines(p);
  }

  method WriteBody(start: string, ghost ls: seq<string>, p: PeerConf) returns (buf: string)
    requires start == JoinLines(ls)
    ensures buf == JoinLines(ls + BodyLines(p))
  {
    hide JoinLines, Decimal;
    var line := "AllowedIPs = " + p.allowedIPs;
    buf := Emit(start, ls, line);
    ghost var now := ls + [line];
    if p.presharedKey != "" {
      line := "PresharedKey = " + p.presharedKey;
      buf := Emit(buf, now, line);
      now := now + [line];
    }
    if p.endpoint != "" {
      line := "Endpoint = " + p.endpoint;
      buf := Emit(buf, now, line);
      now := now + [line];
    }
    if p.keepalive > 0 {
      line := "PersistentKeepalive = " + Decimal(p.keepalive);
      buf := Emit(buf, now, line);
      now := now + [line];
    }
    assert now == ls + BodyLines(p);
  }

  method ParseConfComments(file: Option<string>) returns (result: map<string, PeerMeta>)
    ensures result == if file.None? then map[] else Comments(file.value)
  {
    hide KindOf, Split, SetMeta;
    result := map[];
    if file.None? {
      return;
    }
    var lines := Split(file.value, '\n');
    var meta, has := NO_META, false;
    for i := 0 to |lines|
      invariant Scan(meta, has, result) == ScanLines(Scan(NO_META, false, map[]), lines[..i])
    {
      assert lines[..i + 1][..i] == lines[..i];
      match KindOf(lines[i]) {
        case MetaLine(entry) =>
          if entry.Some? {
            meta, has := SetMeta(meta, entry.value), true;
          }
        case KeyLine(key) =>
          if has {
            if key.Some? {
              result := result[key.value := meta];
            }
            meta, has := NO_META, false;
          }
        case PeerHeader =>
          if !has {
            meta := NO_META;
          }
        case Other => has := false;
        case _ =>
      }
    }
    assert lines[..|lines|] == lines;
  }
}
