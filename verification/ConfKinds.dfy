/** How the parsers classify the lines that WriteConf writes. */
module ConfKinds {
  import opened Text
  import opened TextLaws
  import opened ConfFile

  /** A line with a solid first character and a solid label keeps the label when trimmed. */
  lemma TrimLabelled(prefix: string, value: string)
    requires prefix != "" && !IsSpace(prefix[0]) && !IsSpace(prefix[|prefix| - 1])
    ensures TrimSpace(prefix + value) == prefix + TrimRight(value)
  {
    assert (prefix + value)[0] == prefix[0];
    TrimRightConcat(prefix, value);
  }

  lemma BlankKind()
    ensures KindOf("") == Quiet
  {
  }

  lemma HeaderKind()
    ensures KindOf("[Peer]") == PeerHeader
  {
    assert TrimSpace("[Peer]") == "[Peer]";
  }

  lemma KeyKind(key: string)
    ensures KindOf("PublicKey = " + key) == KeyLine(Some(TrimSpace(key)))
  {
    hide TrimSpace, TrimRight, SplitEq;
    var value := " " + key;
    var t := "PublicKey =" + TrimRight(value);
    assert "PublicKey = " + key == "PublicKey =" + value;
    TrimLabelled("PublicKey =", value);
    assert t[0] == 'P' && t[..9] == "PublicKey";
    assert t == "PublicKey " + "=" + TrimRight(value);
    SplitEqAt("PublicKey ", TrimRight(value));
    TrimAfterRight(value);
    TrimLeading(key);
  }

  lemma MetaKind(key: string, value: string)
    requires key in {"name", "created", "notes"}
    ensures KindOf("# wg-sockd:" + key + "=" + value) == MetaLine(Some((key, TrimSpace(value))))
  {
    hide TrimSpace, TrimRight, SplitEq;
    var prefix := "# wg-sockd:" + key + "=";
    var t := prefix + TrimRight(value);
    TrimLabelled(prefix, value);
    assert t[0] == '#' && t[..11] == "# wg-sockd:";
    assert t[11..] == key + "=" + TrimRight(value);
    assert '=' !in key;
    SplitEqAt(key, TrimRight(value));
    TrimAfterRight(value);
    SolidKey(key);
  }

  lemma SolidKey(key: string)
    requires key in {"name", "created", "notes"}
    ensures TrimSpace(key) == key
  {
    assert !IsSpace(key[0]) && !IsSpace(key[|key| - 1]);
  }

  lemma BodyKind(field: string, value: string)
    requires field in {"AllowedIPs =", "PresharedKey =", "Endpoint =", "PersistentKeepalive ="}
    ensures KindOf(field + value) == Other
  {
    hide TrimSpace, TrimRight, SplitEq;
    var t := field + TrimRight(value);
    TrimLabelled(field, value);
    assert t[0] == field[0] && t[1] == field[1];
  }

  lemma BodyKinds(p: PeerConf)
    ensures forall l :: l in BodyLines(p) ==> KindOf(l) == Other
  {
    hide KindOf, Decimal;
    BodyKind("AllowedIPs =", " " + p.allowedIPs);
    BodyKind("PresharedKey =", " " + p.presharedKey);
    BodyKind("Endpoint =", " " + p.endpoint);
    assert "AllowedIPs =" + (" " + p.allowedIPs) == "AllowedIPs = " + p.allowedIPs;
    assert "PresharedKey =" + (" " + p.presharedKey) == "PresharedKey = " + p.presharedKey;
    assert "Endpoint =" + (" " + p.endpoint) == "Endpoint = " + p.endpoint;
    if p.keepalive > 0 {
      BodyKind("PersistentKeepalive =", " " + Decimal(p.keepalive));
      assert "PersistentKeepalive =" + (" " + Decimal(p.keepalive)) == "PersistentKeepalive = " + Decimal(p.keepalive);
    }
  }

  /** Sanitizing works character by character: newlines become blanks, carriage returns go, the rest stays. */
  lemma {:induction false} SanitizeConcat(a: string, b: string)
    ensures Sanitize(a + b) == Sanitize(a) + Sanitize(b)
  {
    if a == "" {
      assert a + b == b;
    } else {
      assert (a + b)[1..] == a[1..] + b;
      SanitizeConcat(a[1..], b);
    }
  }

  lemma SanitizeEach(c: char)
    ensures Sanitize([c]) == if c == '\n' then " " else if c == '\r' then "" else [c]
  {
    assert [c][1..] == "";
  }

  lemma MetaKinds(p: PeerConf)
    ensures forall l :: l in MetaLines(p) ==> KindOf(l).MetaLine?
    ensures p.friendlyName != "" ==>
      KindOf("# wg-sockd:name=" + Sanitize(p.friendlyName))
        == MetaLine(Some(("name", TrimSpace(Sanitize(p.friendlyName)))))
    ensures p.created != "" ==>
      KindOf("# wg-sockd:created=" + p.created) == MetaLine(Some(("created", TrimSpace(p.created))))
    ensures p.notes != "" ==>
      KindOf("# wg-sockd:notes=" + Sanitize(p.notes)) == MetaLine(Some(("notes", TrimSpace(Sanitize(p.notes)))))
  {
    hide KindOf, Sanitize, TrimSpace;
    MetaKind("name", Sanitize(p.friendlyName));
    MetaKind("created", p.created);
    MetaKind("notes", Sanitize(p.notes));
    assert "# wg-sockd:" + "name" + "=" + Sanitize(p.friendlyName) == "# wg-sockd:name=" + Sanitize(p.friendlyName);
    assert "# wg-sockd:" + "created" + "=" + p.created == "# wg-sockd:created=" + p.created;
    assert "# wg-sockd:" + "notes" + "=" + Sanitize(p.notes) == "# wg-sockd:notes=" + Sanitize(p.notes);
  }
}
