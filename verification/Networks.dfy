/** The Multus network annotation: the comma-separated short form and the JSON array form. */
module Networks {
  import opened Wrappers
  import opened Text

  /** A network attached to a pod and the in-pod interface name, "" when the annotation gives none. */
  datatype NetworkRef = NetworkRef(ns: string, name: string, iface: string)

  /** What encoding/json reads from the array form: None when it is malformed. */
  type JsonReader = string -> Option<seq<NetworkRef>>

  // ----- Parsing, as a function

  /** What stands before the first `c`, and what after it. */
  function Cut(s: string, c: char): (string, Option<string>) {
    var i := IndexOf(s, c);
    if i < |s| then (s[..i], Some(s[i + 1..])) else (s, None)
  }

  lemma CutFirst(a: string, c: char, b: string)
    requires c !in a
    ensures Cut(a + [c] + b, c) == (a, Some(b))
  {
    IndexOfFirst(a, c, b);
    var s := a + [c] + b;
    assert s[..|a|] == a && s[|a| + 1..] == b;
  }

  lemma CutNone(a: string, c: char)
    requires c !in a
    ensures Cut(a, c) == (a, None)
  {
  }

  /** One short-form entry "[ns/]name[@iface]". */
  function ParseToken(token: string, defaultNS: string): Option<NetworkRef> {
    var tok := TrimSpace(token);
    var (path, iface) := Cut(tok, '@');
    var (head, tail) := Cut(path, '/');
    var name := if tail.Some? then tail.value else head;
    if tok == "" || name == "" then None
    else Some(NetworkRef(if tail.Some? then head else defaultNS, name, if iface.Some? then iface.value else ""))
  }

  function ParseTokens(tokens: seq<string>, defaultNS: string): seq<NetworkRef> {
    if tokens == [] then []
    else
      var n := |tokens| - 1;
      ParseTokens(tokens[..n], defaultNS) +
      match ParseToken(tokens[n], defaultNS) { case Some(r) => [r] case None => [] }
  }

  function FillRefs(refs: seq<NetworkRef>, defaultNS: string): seq<NetworkRef> {
    if refs == [] then []
    else
      var n := |refs| - 1;
      FillRefs(refs[..n], defaultNS) +
      if refs[n].name == "" then [] else [if refs[n].ns == "" then refs[n].(ns := defaultNS) else refs[n]]
  }

  function Parse(json: JsonReader, annotation: string, defaultNS: string): seq<NetworkRef> {
    var a := TrimSpace(annotation);
    if a == "" then []
    else if HasPrefix(a, "[") then
      match json(a) { case None => [] case Some(refs) => FillRefs(refs, defaultNS) }
    else ParseTokens(Split(a, ','), defaultNS)
  }

  // ----- What the array form means

  /** How many of the entries have a name. */
  function Named(refs: seq<NetworkRef>): nat {
    if refs == [] then 0 else Named(refs[..|refs| - 1]) + if refs[|refs| - 1].name == "" then 0 else 1
  }

  /** The named entries, in order; each keeps its name and interface, and its namespace unless that
      is empty, when the default one stands in. */
  ghost predicate AsGiven(out: seq<NetworkRef>, refs: seq<NetworkRef>, defaultNS: string) {
    && |out| == Named(refs)
    && forall i :: 0 <= i < |refs| && refs[i].name != "" ==>
         && Named(refs[..i]) < |out|
         && var r := out[Named(refs[..i])];
            r.name == refs[i].name && r.iface == refs[i].iface && r.ns == if refs[i].ns == "" then defaultNS else refs[i].ns
  }

  lemma {:induction false} FilledAsGiven(refs: seq<NetworkRef>, defaultNS: string)
    ensures AsGiven(FillRefs(refs, defaultNS), refs, defaultNS)
  {
    if refs != [] {
      var n := |refs| - 1;
      FilledAsGiven(refs[..n], defaultNS);
      AsGivenSnoc(FillRefs(refs[..n], defaultNS), refs[..n], refs[n], defaultNS);
      hide AsGiven, Named;
      assert refs[..n] + [refs[n]] == refs;
    }
  }

  lemma AsGivenSnoc(out: seq<NetworkRef>, refs: seq<NetworkRef>, r: NetworkRef, defaultNS: string)
    requires AsGiven(out, refs, defaultNS)
    ensures r.name == "" ==> AsGiven(out + [], refs + [r], defaultNS)
    ensures r.name != "" ==> AsGiven(out + [NetworkRef(if r.ns == "" then defaultNS else r.ns, r.name, r.iface)], refs + [r], defaultNS)
  {
    var all := refs + [r];
    assert all[..|refs|] == refs;
    assert forall i :: 0 <= i < |refs| ==> all[..i] == refs[..i];
  }

  /** Entries that give everything come back as they are. */
  lemma {:induction false} GivenInFull(refs: seq<NetworkRef>, defaultNS: string)
    requires forall r :: r in refs ==> r.name != "" && r.ns != ""
    ensures FillRefs(refs, defaultNS) == refs
  {
    if refs != [] {
      var n := |refs| - 1;
      GivenInFull(refs[..n], defaultNS);
      assert refs[n] in refs && refs[..n] + [refs[n]] == refs;
    }
  }

  // ----- Parsing, as the code does it

  method ParseShort(token: string, defaultNS: string) returns (ref: Option<NetworkRef>)
    ensures ref == ParseToken(token, defaultNS)
  {
    hide TrimSpace, IndexOf;
    var tok := TrimSpace(token);
    if tok == "" {
      return None;
    }
    var iface := "";
    var i := IndexOf(tok, '@');
    if i < |tok| {
      iface := tok[i + 1..];
      tok := tok[..i];
    }
    var ns, name := defaultNS, tok;
    i := IndexOf(tok, '/');
    if i < |tok| {
      ns, name := tok[..i], tok[i + 1..];
    }
    if name == "" {
      return None;
    }
    return Some(NetworkRef(ns, name, iface));
  }

  method ParseNetworks(json: JsonReader, annotation: string, defaultNS: string) returns (out: seq<NetworkRef>)
    ensures out == Parse(json, annotation, defaultNS)
    ensures var a := TrimSpace(annotation);
            a != "" && a[0] == '[' ==>
              match json(a) { case None => out == [] case Some(refs) => AsGiven(out, refs, defaultNS) }
  {
    BracketPrefix(TrimSpace(annotation));
    hide TrimSpace, Split, HasPrefix, ParseToken, AsGiven;
    out := [];
    var a := TrimSpace(annotation);
    if a == "" {
      return;
    }
    if HasPrefix(a, "[") {
      var parsed := json(a);
      if parsed.None? {
        return;
      }
      var arr := parsed.value;
      for i := 0 to |arr|
        invariant out == FillRefs(arr[..i], defaultNS)
      {
        assert arr[..i + 1][..i] == arr[..i];
        if arr[i].name == "" {
          continue;
        }
        var ns := arr[i].ns;
        if ns == "" {
          ns := defaultNS;
        }
        out := out + [NetworkRef(ns, arr[i].name, arr[i].iface)];
      }
      assert arr[..|arr|] == arr;
      FilledAsGiven(arr, defaultNS);
      return;
    }
    var tokens := Split(a, ',');
    for i := 0 to |tokens|
      invariant out == ParseTokens(tokens[..i], defaultNS)
    {
      assert tokens[..i + 1][..i] == tokens[..i];
      var ref := ParseShort(tokens[i], defaultNS);
      if ref.Some? {
        out := out + [ref.value];
      }
    }
    assert tokens[..|tokens|] == tokens;
  }

  lemma BracketPrefix(a: string)
    ensures HasPrefix(a, "[") <==> a != "" && a[0] == '['
  {
  }

  // ----- Printing

  /** An entry of the short form; the namespace may be left out. */
  datatype Entry = Entry(ns: Option<string>, name: string, iface: string)

  function Print(e: Entry): string {
    (match e.ns { case None => "" case Some(ns) => ns + "/" }) + e.name + (if e.iface == "" then "" else "@" + e.iface)
  }

  function PrintAll(es: seq<Entry>): seq<string> {
    if es == [] then [] else PrintAll(es[..|es| - 1]) + [Print(es[|es| - 1])]
  }

  function Meant(e: Entry, defaultNS: string): NetworkRef {
    NetworkRef(match e.ns { case None => defaultNS case Some(ns) => ns }, e.name, e.iface)
  }

  function MeantAll(es: seq<Entry>, defaultNS: string): seq<NetworkRef> {
    if es == [] then [] else MeantAll(es[..|es| - 1], defaultNS) + [Meant(es[|es| - 1], defaultNS)]
  }

  /** Entries the short form can carry: a non-empty name, no comma, no "@" before the interface
      name, a slash only after an explicit namespace, and no white space at the edges. */
  ghost predicate Printable(e: Entry) {
    e.name != "" && Writable(e)
  }

  /** The same of entries that may lack a name. */
  ghost predicate Writable(e: Entry) {
    && '@' !in e.name && (e.ns.Some? ==> '@' !in e.ns.value && '/' !in e.ns.value) && (e.ns.None? ==> '/' !in e.name)
    && ',' !in Print(e) && NoEdgeSpace(Print(e))
  }

  lemma TrimNothing(s: string)
    requires NoEdgeSpace(s)
    ensures TrimSpace(s) == s
  {
    assert TrimLeft(s, IsSpace) == s;
  }

  function PathOf(e: Entry): string {
    if e.ns.None? then e.name else e.ns.value + ['/'] + e.name
  }

  lemma PrintCut(e: Entry)
    requires Writable(e)
    ensures Cut(Print(e), '@') == (PathOf(e), if e.iface == "" then None else Some(e.iface))
  {
    hide Cut, NoEdgeSpace;
    assert '@' !in PathOf(e);
    if e.iface == "" {
      assert Print(e) == PathOf(e);
      CutNone(PathOf(e), '@');
    } else {
      assert Print(e) == PathOf(e) + ['@'] + e.iface;
      CutFirst(PathOf(e), '@', e.iface);
    }
  }

  lemma PathCut(e: Entry)
    requires Writable(e)
    ensures Cut(PathOf(e), '/') == if e.ns.None? then (e.name, None) else (e.ns.value, Some(e.name))
  {
    hide Cut, NoEdgeSpace, Print;
    if e.ns.Some? {
      CutFirst(e.ns.value, '/', e.name);
    } else {
      CutNone(e.name, '/');
    }
  }

  /** One printed entry parses to what it means; without a name it is skipped. */
  lemma ParsePrint(e: Entry, defaultNS: string)
    requires Writable(e)
    ensures ParseToken(Print(e), defaultNS) == if e.name == "" then None else Some(Meant(e, defaultNS))
  {
    WrittenFacts(e);
    TrimNothing(Print(e));
    PrintCut(e);
    PathCut(e);
    TokenMeans(Print(e), PathOf(e), e, defaultNS);
  }

  lemma ParseNamed(e: Entry, defaultNS: string)
    requires Printable(e)
    ensures ParseToken(Print(e), defaultNS) == Some(Meant(e, defaultNS))
  {
    ParsePrint(e, defaultNS);
  }

  lemma TokenMeans(token: string, path: string, e: Entry, defaultNS: string)
    requires TrimSpace(token) == token && (token == "" ==> e.name == "")
    requires Cut(token, '@') == (path, if e.iface == "" then None else Some(e.iface))
    requires Cut(path, '/') == if e.ns.None? then (e.name, None) else (e.ns.value, Some(e.name))
    ensures ParseToken(token, defaultNS) == if e.name == "" then None else Some(Meant(e, defaultNS))
  {
    hide TrimSpace, Cut;
  }

  lemma WrittenFacts(e: Entry)
    requires Writable(e)
    ensures NoEdgeSpace(Print(e)) && (Print(e) == "" ==> e.name == "")
  {
  }

  /** White space around an entry, or around the whole annotation, does not matter. */
  lemma PaddingIgnored(json: JsonReader, l: string, s: string, r: string, defaultNS: string)
    requires Blank(l) && Blank(r)
    ensures ParseToken(l + s + r, defaultNS) == ParseToken(s, defaultNS)
    ensures Parse(json, l + s + r, defaultNS) == Parse(json, s, defaultNS)
  {
    TrimPad(l, s, r);
    hide *;
    SameTrimmed(json, l + s + r, s, defaultNS);
  }

  lemma SameTrimmed(json: JsonReader, a: string, b: string, defaultNS: string)
    requires TrimSpace(a) == TrimSpace(b)
    ensures ParseToken(a, defaultNS) == ParseToken(b, defaultNS)
    ensures Parse(json, a, defaultNS) == Parse(json, b, defaultNS)
  {
    hide TrimSpace, Cut, FillRefs, ParseTokens, Split, HasPrefix;
  }

  lemma {:induction false} ParsePrintAll(es: seq<Entry>, defaultNS: string)
    requires forall e :: e in es ==> Printable(e)
    ensures |PrintAll(es)| == |es| && ParseTokens(PrintAll(es), defaultNS) == MeantAll(es, defaultNS)
    ensures forall k :: 0 <= k < |es| ==> PrintAll(es)[k] == Print(es[k])
  {
    hide Printable, Writable, ParseToken, Print, Meant;
    if es != [] {
      var n := |es| - 1;
      ParsePrintAll(es[..n], defaultNS);
      ParseNamed(es[n], defaultNS);
      assert PrintAll(es)[..n] == PrintAll(es[..n]);
    }
  }

  lemma {:induction false} JoinEdges(parts: seq<string>)
    requires parts != [] && forall k :: 0 <= k < |parts| ==> parts[k] != "" && NoEdgeSpace(parts[k])
    ensures var s := Join(parts, ','); s != "" && NoEdgeSpace(s) && s[0] == parts[0][0]
  {
    hide IsSpace;
    if |parts| > 1 {
      var rest := Join(parts[1..], ',');
      JoinEdges(parts[1..]);
      var s := parts[0] + [','] + rest;
      assert s == Join(parts, ',');
      assert s[|s| - 1] == rest[|rest| - 1] && s[0] == parts[0][0];
    }
  }

  lemma JoinedFacts(es: seq<Entry>)
    requires es != [] && forall e :: e in es ==> Printable(e)
    requires !HasPrefix(Print(es[0]), "[")
    ensures var s := Join(PrintAll(es), ','); s != "" && s[0] != '[' && NoEdgeSpace(s) && Split(s, ',') == PrintAll(es)
  {
    ParsePrintAll(es, "");
    var parts := PrintAll(es);
    hide Printable, Print, ParseTokens, Split, Join, NoEdgeSpace, MeantAll, PrintAll;
    forall k | 0 <= k < |parts| ensures parts[k] != "" && NoEdgeSpace(parts[k]) && ',' !in parts[k] {
      PrintedFacts(es[k]);
    }
    JoinEdges(parts);
    SplitJoin(parts, ',');
    PrintedFacts(es[0]);
  }

  lemma PrintedFacts(e: Entry)
    requires Printable(e)
    ensures Print(e) != "" && NoEdgeSpace(Print(e)) && ',' !in Print(e)
    ensures !HasPrefix(Print(e), "[") ==> Print(e)[0] != '['
  {
  }

  /** Parsing undoes printing: the same references in the same order, an omitted namespace
      being the default one. Only a leading "[" would be taken for the JSON form. */
  lemma ParseUndoesPrint(json: JsonReader, es: seq<Entry>, defaultNS: string)
    requires forall e :: e in es ==> Printable(e)
    requires es != [] ==> !HasPrefix(Print(es[0]), "[")
    ensures Parse(json, Join(PrintAll(es), ','), defaultNS) == MeantAll(es, defaultNS)
  {
    if es == [] {
      return;
    }
    JoinedFacts(es);
    ParsePrintAll(es, defaultNS);
    var s := Join(PrintAll(es), ',');
    hide *;
    TrimNothing(s);
    ShortForm(json, s, defaultNS);
  }

  lemma ShortForm(json: JsonReader, s: string, defaultNS: string)
    requires TrimSpace(s) == s && s != "" && s[0] != '['
    ensures Parse(json, s, defaultNS) == ParseTokens(Split(s, ','), defaultNS)
  {
    hide TrimSpace, ParseTokens, Split;
  }

  // ----- Namespaces

  /** In the short form a namespace never holds a slash unless the default one does. */
  lemma {:induction false} ShortFormNamespaces(tokens: seq<string>, defaultNS: string)
    requires '/' !in defaultNS
    ensures forall r :: r in ParseTokens(tokens, defaultNS) ==> '/' !in r.ns
  {
    if tokens != [] {
      ShortFormNamespaces(tokens[..|tokens| - 1], defaultNS);
    }
  }
}
