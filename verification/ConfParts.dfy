/** Parsing loses nothing: every line of a file ends up in one part, metadata comments under [Interface] excepted. */
module ConfParts {
  import opened Text
  import opened TextLaws
  import opened ConfFile
  import opened ConfLaws

  /** The lines of a raw section. */
  function RawLines(raw: string): seq<string> {
    var pieces := Split(raw, '\n');
    pieces[..|pieces| - 1]
  }

  function SectionLines(peers: seq<ConfPeer>): multiset<string> {
    if peers == [] then multiset{}
    else SectionLines(peers[..|peers| - 1]) + multiset(RawLines(peers[|peers| - 1].rawLines))
  }

  /** All lines held by the parser. */
  function Parts(st: State): multiset<string> {
    multiset(st.pre) + multiset(st.iface) + multiset(st.peer) + SectionLines(st.peers)
  }

  /** The last header among the lines is [Interface]. */
  predicate UnderInterface(ls: seq<string>) {
    ls != [] &&
    var kind := KindOf(ls[|ls| - 1]);
    kind == InterfaceHeader || (kind != PeerHeader && UnderInterface(ls[..|ls| - 1]))
  }

  /** The metadata comments directly under [Interface]: what deleted peers have left behind. */
  function Stray(ls: seq<string>): multiset<string> {
    if ls == [] then multiset{}
    else
      var n := |ls| - 1;
      Stray(ls[..n]) + if KindOf(ls[n]).MetaLine? && UnderInterface(ls[..n]) then multiset{ls[n]} else multiset{}
  }

  lemma FlushedParts(st: State)
    requires AllOneLine(st.peer)
    ensures var s := FlushPeer(st);
      Parts(s) == Parts(st) && s.pre == st.pre && s.iface == st.iface && s.peer == [] && s.cur == st.cur
  {
    hide Split, JoinLines;
    if st.peer != [] {
      var section := ConfPeer(st.key, JoinLines(st.peer));
      SplitJoin(st.peer);
      assert (st.peer + [""])[..|st.peer|] == st.peer;
      assert (st.peers + [section])[..|st.peers|] == st.peers;
    }
  }

  lemma OneMore(st: State, st': State, line: string)
    requires st'.peers == st.peers
    requires || (st'.pre == st.pre + [line] && st'.iface == st.iface && st'.peer == st.peer)
             || (st'.pre == st.pre && st'.iface == st.iface + [line] && st'.peer == st.peer)
             || (st'.pre == st.pre && st'.iface == st.iface && st'.peer == st.peer + [line])
    requires AllOneLine(st.peer) && OneLine(line)
    ensures Parts(st') == Parts(st) + multiset{line} && AllOneLine(st'.peer)
  {
    hide SectionLines;
  }

  lemma StepParts(st: State, line: string)
    requires AllOneLine(st.peer) && OneLine(line)
    ensures var st' := Step(st, line);
      var kept := if KindOf(line).MetaLine? && st.cur == InInterface then multiset{} else multiset{line};
      && AllOneLine(st'.peer) && Parts(st') == Parts(st) + kept
      && (st'.cur == InInterface <==>
            KindOf(line) == InterfaceHeader || (KindOf(line) != PeerHeader && st.cur == InInterface))
  {
    hide KindOf, FlushPeer, Parts, AllOneLine;
    FlushedParts(st);
    var header := KindOf(line) == InterfaceHeader || KindOf(line) == PeerHeader;
    var s := if header && st.cur == InPeer then FlushPeer(st) else st;
    assert AllOneLine(s.peer) by { NoneOneLine(); }
    if header || !(KindOf(line).MetaLine? && st.cur == InInterface) {
      OneMore(s, Step(st, line), line);
    }
  }

  lemma NoneOneLine()
    ensures AllOneLine([])
  {
  }

  lemma {:induction false} StepsParts(ls: seq<string>)
    requires AllOneLine(ls)
    ensures var st := Steps(START, ls);
      && AllOneLine(st.peer) && Parts(st) + Stray(ls) == multiset(ls) && (st.cur == InInterface <==> UnderInterface(ls))
  {
    hide KindOf, Step, Parts;
    if ls == [] {
      StartParts();
    } else {
      var n := |ls| - 1;
      assert ls == ls[..n] + [ls[n]] && ls[n] in ls && forall l :: l in ls[..n] ==> l in ls;
      StepsParts(ls[..n]);
      StepParts(Steps(START, ls[..n]), ls[n]);
    }
  }

  lemma StartParts()
    ensures Parts(START) == multiset{}
  {
  }

  /**
   * Whatever the file, the parser keeps each line as often as it occurs, in the text before [Interface], the interface
   * section or a peer's section, except the metadata comments under [Interface], which it drops.
   */
  lemma NothingDropped(content: string)
    requires content != ""
    ensures Parts(FlushPeer(Steps(START, Split(content, '\n')))) + Stray(Split(content, '\n')) ==
            multiset(Split(content, '\n'))
  {
    hide Split, Parts, Stray, Steps, FlushPeer;
    SplitPieces(content, '\n');
    StepsParts(Split(content, '\n'));
    FlushedParts(Steps(START, Split(content, '\n')));
  }
}
