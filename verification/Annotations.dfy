/** The configuration-data annotation of a pod: a JSON array that grows by editing its text. */
module Annotations {
  import opened Wrappers
  import opened Text
  import opened Desired

  const CONFIG_DATA_KEY := "userspace/configuration-data"

  /** encoding/json on one ConfigurationData. */
  datatype Codec = Codec(enc: ConfigurationData -> Option<string>, dec: string -> Option<ConfigurationData>)

  // ----- The nesting of JSON text

  /** Outside or inside a string literal, at a bracket depth; Bad once a bracket closes too much. */
  datatype Scan = Out(depth: nat) | In(depth: nat) | Escape(depth: nat) | Bad

  function Step(st: Scan, c: char): Scan {
    match st
    case Out(d) =>
      if c == '"' then In(d)
      else if c == '{' || c == '[' then Out(d + 1)
      else if c == '}' || c == ']' then (if d == 0 then Bad else Out(d - 1))
      else st
    case In(d) => if c == '\\' then Escape(d) else if c == '"' then Out(d) else st
    case Escape(d) => In(d)
    case Bad => Bad
  }

  function Run(st: Scan, s: string): Scan
    decreases |s|
  {
    if s == [] then st else Run(Step(st, s[0]), s[1..])
  }

  /** Outside string literals brackets nest, a bracket that closes too much is the end of it, and
      no other character counts; inside one nothing counts but a quote and what a backslash hides. */
  lemma {:induction false} Nesting(d: nat, s: string)
    ensures (forall k :: 0 <= k < |s| ==> s[k] != '{' && s[k] != '}' && s[k] != '[' && s[k] != ']' && s[k] != '"') ==> Run(Out(d), s) == Out(d)
    ensures (forall k :: 0 <= k < |s| ==> s[k] != '"' && s[k] != '\\') ==> Run(In(d), s) == In(d)
    ensures Step(Out(d), '{') == Step(Out(d), '[') == Out(d + 1)
    ensures Step(Out(d + 1), '}') == Step(Out(d + 1), ']') == Out(d)
    ensures Step(Out(0), '}') == Step(Out(0), ']') == Bad
    ensures Step(Out(d), '"') == In(d) && Step(In(d), '"') == Out(d)
    ensures forall c :: Step(Step(In(d), '\\'), c) == In(d) && Step(Bad, c) == Bad
    decreases |s|
  {
    if s != "" {
      Nesting(d, s[1..]);
      assert forall k :: 0 <= k < |s| - 1 ==> s[1..][k] == s[k + 1];
    }
  }

  lemma {:induction false} RunConcat(st: Scan, s: string, s': string)
    ensures Run(st, s + s') == Run(Run(st, s), s')
    decreases |s|
  {
    if s == [] {
      assert s + s' == s';
    } else {
      RunConcat(Step(st, s[0]), s[1..], s');
      assert (s + s')[1..] == s[1..] + s';
    }
  }

  lemma {:induction false} RunBad(s: string)
    ensures Run(Bad, s) == Bad
  {
    if s != [] {
      RunBad(s[1..]);
    }
  }

  /** Where the first comma outside all brackets and strings is, or the length when there is none. */
  function TopComma(s: string, st: Scan): (i: nat)
    ensures i <= |s|
    ensures i < |s| ==> s[i] == ','
  {
    if s == [] || (s[0] == ',' && st == Out(0)) then 0 else 1 + TopComma(s[1..], Step(st, s[0]))
  }

  /** One element's worth of text: brackets and quotes match, and no comma stands outside them. */
  predicate Closed(s: string) {
    Run(Out(0), s) == Out(0) && TopComma(s, Out(0)) == |s|
  }

  lemma {:induction false} TopCommaAfter(s: string, st: Scan, rest: string)
    requires TopComma(s, st) == |s| && Run(st, s) == Out(0)
    ensures TopComma(s + [','] + rest, st) == |s|
  {
    if s != [] {
      TopCommaAfter(s[1..], Step(st, s[0]), rest);
      assert (s + [','] + rest)[1..] == s[1..] + [','] + rest;
    }
  }

  function SplitTop(s: string): (parts: seq<string>)
    ensures |parts| > 0
    decreases |s|
  {
    var i := TopComma(s, Out(0));
    if i == |s| then [s] else [s[..i]] + SplitTop(s[i + 1..])
  }

  ghost predicate AllClosed(parts: seq<string>) {
    forall p :: p in parts ==> Closed(p)
  }

  lemma {:induction false} SplitTopJoin(parts: seq<string>)
    requires parts != [] && AllClosed(parts)
    ensures SplitTop(Join(parts, ',')) == parts
  {
    hide Step;
    assert Closed(parts[0]);
    if |parts| > 1 {
      var rest := Join(parts[1..], ',');
      TopCommaAfter(parts[0], Out(0), rest);
      var s := parts[0] + [','] + rest;
      assert s[..|parts[0]|] == parts[0] && s[|parts[0]| + 1..] == rest;
      SplitTopJoin(parts[1..]);
    }
  }

  lemma {:induction false} JoinSplitTop(s: string)
    ensures Join(SplitTop(s), ',') == s
    decreases |s|
  {
    var i := TopComma(s, Out(0));
    if i < |s| {
      JoinSplitTop(s[i + 1..]);
      assert s == s[..i] + [','] + s[i + 1..];
    }
  }

  lemma {:induction false} JoinSnoc(parts: seq<string>, p: string)
    requires parts != []
    ensures Join(parts + [p], ',') == Join(parts, ',') + [','] + p
  {
    if |parts| > 1 {
      JoinSnoc(parts[1..], p);
      assert (parts + [p])[1..] == parts[1..] + [p];
    }
  }

  lemma {:induction false} RunJoin(parts: seq<string>)
    requires parts != [] && AllClosed(parts)
    ensures Run(Out(0), Join(parts, ',')) == Out(0)
  {
    assert Closed(parts[0]);
    if |parts| > 1 {
      var rest := Join(parts[1..], ',');
      RunJoin(parts[1..]);
      RunConcat(Out(0), parts[0], [','] + rest);
      assert parts[0] + ([','] + rest) == Join(parts, ',');
      assert ([','] + rest)[1..] == rest;
    }
  }

  // ----- Reading a JSON array

  /** White space in JSON (RFC 8259, section 2). */
  predicate IsWs(c: char) {
    c == ' ' || c == '\t' || c == '\n' || c == '\r'
  }

  function TrimWs(s: string): string {
    TrimRight(TrimLeft(s, IsWs), IsWs)
  }

  predicate AllWs(s: string) {
    forall k :: 0 <= k < |s| ==> IsWs(s[k])
  }

  function ReadAll(codec: Codec, parts: seq<string>): Option<seq<ConfigurationData>> {
    if parts == [] then Some([])
    else
      var n := |parts| - 1;
      match (ReadAll(codec, parts[..n]), codec.dec(parts[n])) {
        case (Some(cs), Some(c)) => Some(cs + [c])
        case _ => None
      }
  }

  /** The elements of a JSON array (RFC 8259, section 5); None when the text is not one. */
  function Read(codec: Codec, a: string): Option<seq<ConfigurationData>> {
    var t := TrimWs(a);
    if |t| < 2 || t[0] != '[' || t[|t| - 1] != ']' then None
    else
      var content := t[1..|t| - 1];
      if AllWs(content) then Some([]) else ReadAll(codec, SplitTop(content))
  }

  /** The reader in the container looks for a bracket, a brace or a quote first. */
  function GetConfigData(codec: Codec, raw: string): Option<seq<ConfigurationData>> {
    if '[' in raw || '{' in raw || '"' in raw then Read(codec, raw) else None
  }

  /** What may stand for one element: closed text that is not blank and not an array. */
  predicate ElementText(s: string) {
    Closed(s) && TrimWs(s) != "" && TrimWs(s)[0] != '[' && TrimWs(s)[|TrimWs(s)| - 1] != ']'
  }

  /** The printer prints objects its reader reads back; the reader reads element texts only. */
  ghost predicate Faithful(codec: Codec) {
    && (forall c :: codec.enc(c).Some? ==>
          var s := codec.enc(c).value;
          codec.dec(s) == Some(c) && s != "" && s[0] == '{' && s[|s| - 1] == '}')
    && (forall s :: codec.dec(s).Some? ==> ElementText(s))
  }

  // ----- Appending

  predicate IsOpen(c: char) {
    c == '['
  }

  predicate IsClose(c: char) {
    c == ']'
  }

  /** Every bracket at the edges goes, not only the outermost. */
  function Stripped(a: string): string {
    TrimRight(TrimLeft(a, IsOpen), IsClose)
  }

  /** The annotation after an append of the printed element `s`. */
  function Appended(a: string, s: string): string {
    "[" + Join(if a == "" then [s] else [Stripped(a), s], ',') + "]"
  }

  datatype Failure = NoPod | MarshalError

  class PodObject {
    var annotations: map<string, string>

    constructor (annotations: map<string, string>)
      ensures this.annotations == annotations
    {
      this.annotations := annotations;
    }
  }

  function Annotation(annotations: map<string, string>, key: string): string {
    if key in annotations then annotations[key] else ""
  }

  /** Appends one configuration; without a pod, without a configuration or when it does not
      marshal, nothing changes. */
  method SetPodAnnotationConfigData(codec: Codec, pod: PodObject?, configData: Option<ConfigurationData>)
    returns (modified: bool, err: Option<Failure>)
    modifies pod
    ensures pod == null ==> !modified && err == Some(NoPod)
    ensures pod != null ==> (err.Some? <==> configData.Some? && codec.enc(configData.value) == None)
    ensures modified <==> pod != null && configData.Some? && err == None
    ensures pod != null && !modified ==> pod.annotations == old(pod.annotations)
    ensures modified ==> pod.annotations == old(pod.annotations)[
              CONFIG_DATA_KEY := Appended(Annotation(old(pod.annotations), CONFIG_DATA_KEY), codec.enc(configData.value).value)]
  {
    var parts: seq<string> := [];
    modified, err := false, None;
    if pod == null {
      return false, Some(NoPod);
    }
    if configData == None {
      return;
    }
    var annot := Annotation(pod.annotations, CONFIG_DATA_KEY);
    if |annot| != 0 {
      annot := TrimLeft(annot, IsOpen);
      annot := TrimRight(annot, IsClose);
      parts := parts + [annot];
    }
    var data := codec.enc(configData.value);
    if data == None {
      return modified, Some(MarshalError);
    }
    parts := parts + [data.value];
    pod.annotations := pod.annotations[CONFIG_DATA_KEY := "[" + Join(parts, ',') + "]"];
    modified := true;
  }

  // ----- Facts about reading

  lemma {:induction false} ReadAllClosed(codec: Codec, parts: seq<string>)
    requires Faithful(codec) && ReadAll(codec, parts).Some?
    ensures forall p :: p in parts ==> codec.dec(p).Some? && ElementText(p)
    ensures |ReadAll(codec, parts).value| == |parts|
  {
    hide ElementText;
    if parts != [] {
      ReadAllClosed(codec, parts[..|parts| - 1]);
    }
  }

  lemma {:induction false} ReadAllFails(codec: Codec, parts: seq<string>, p: string)
    requires p in parts && codec.dec(p) == None
    ensures ReadAll(codec, parts) == None
  {
    var n := |parts| - 1;
    if parts[n] != p {
      ReadAllFails(codec, parts[..n], p);
    }
  }

  lemma TrimLeftStep(s: string)
    ensures s != "" && IsWs(s[0]) ==> TrimLeft(s, IsWs) == TrimLeft(s[1..], IsWs)
    ensures s == "" || !IsWs(s[0]) ==> TrimLeft(s, IsWs) == s
  {
  }

  lemma TrimRightStep(s: string)
    ensures s != "" && IsWs(s[|s| - 1]) ==> TrimRight(s, IsWs) == TrimRight(s[..|s| - 1], IsWs)
    ensures s == "" || !IsWs(s[|s| - 1]) ==> TrimRight(s, IsWs) == s
  {
  }

  lemma DropFirst(l: string, s: string)
    requires l != ""
    ensures l + s != "" && (l + s)[0] == l[0] && (l + s)[1..] == l[1..] + s
  {
  }

  lemma DropLast(s: string, r: string)
    requires r != ""
    ensures s + r != "" && (s + r)[|s + r| - 1] == r[|r| - 1] && (s + r)[..|s + r| - 1] == s + r[..|r| - 1]
  {
  }

  lemma {:induction false} TrimLeftWs(l: string, s: string)
    requires AllWs(l) && (s == "" || !IsWs(s[0]))
    ensures TrimLeft(l + s, IsWs) == s
  {
    hide TrimLeft;
    TrimLeftStep(l + s);
    if l == [] {
      assert l + s == s;
    } else {
      DropFirst(l, s);
      TrimLeftWs(l[1..], s);
    }
  }

  lemma {:induction false} TrimRightWs(s: string, r: string)
    requires AllWs(r) && (s == "" || !IsWs(s[|s| - 1]))
    ensures TrimRight(s + r, IsWs) == s
  {
    hide TrimRight;
    TrimRightStep(s + r);
    if r == [] {
      assert s + r == s;
    } else {
      DropLast(s, r);
      TrimRightWs(s, r[..|r| - 1]);
    }
  }

  lemma {:induction false} LeftCut(s: string)
    ensures AllWs(s[..|s| - |TrimLeft(s, IsWs)|])
  {
    if s != [] && IsWs(s[0]) {
      LeftCut(s[1..]);
      var n := |s| - |TrimLeft(s, IsWs)|;
      assert s[..n] == [s[0]] + s[1..][..n - 1];
    }
  }

  lemma {:induction false} RightCut(s: string)
    ensures AllWs(s[|TrimRight(s, IsWs)|..])
  {
    if s != [] && IsWs(s[|s| - 1]) {
      RightCut(s[..|s| - 1]);
      var n := |TrimRight(s, IsWs)|;
      assert s[n..] == s[..|s| - 1][n..] + [s[|s| - 1]];
    }
  }

  /** The white space around the trimmed text. */
  lemma Around(s: string) returns (l: string, r: string)
    ensures s == l + TrimWs(s) + r && AllWs(l) && AllWs(r)
  {
    hide TrimLeft, TrimRight, AllWs;
    var t := TrimLeft(s, IsWs);
    var u := TrimRight(t, IsWs);
    LeftCut(s);
    RightCut(t);
    Glue(s, t, u);
    l, r := s[..|s| - |t|], t[|u|..];
  }

  lemma Glue(s: string, t: string, u: string)
    requires |t| <= |s| && t == s[|s| - |t|..] && u <= t
    ensures s == s[..|s| - |t|] + u + t[|u|..]
  {
    assert t == u + t[|u|..];
    assert s == s[..|s| - |t|] + t;
  }

  lemma TrimAround(l: string, t: string, r: string)
    requires AllWs(l) && AllWs(r) && t != "" && !IsWs(t[0]) && !IsWs(t[|t| - 1])
    ensures TrimWs(l + t + r) == t
  {
    assert l + t + r == l + (t + r);
    TrimLeftWs(l, t + r);
    TrimRightWs(t, r);
  }

  /** Reading text in brackets. */
  lemma ReadBracketed(codec: Codec, content: string)
    ensures Read(codec, "[" + content + "]") == if AllWs(content) then Some([]) else ReadAll(codec, SplitTop(content))
  {
    var a := "[" + content + "]";
    assert "" + a + "" == a;
    TrimAround("", a, "");
    assert a[1..|a| - 1] == content;
    hide TrimWs, SplitTop, ReadAll;
  }

  lemma {:induction false} WsClosed(s: string, st: Scan)
    requires AllWs(s) && st == Out(0)
    ensures Run(st, s) == Out(0) && TopComma(s, st) == |s|
  {
    if s != [] {
      WsClosed(s[1..], st);
    }
  }

  // ----- Appending and reading

  lemma OpenOnce(u: string)
    requires u != "" ==> u[0] != '['
    ensures TrimLeft("[" + u, IsOpen) == u
  {
    assert ("[" + u)[1..] == u;
  }

  lemma CloseOnce(v: string)
    requires v != "" ==> v[|v| - 1] != ']'
    ensures TrimRight(v + "]", IsClose) == v
  {
    assert (v + "]")[..|v|] == v;
  }

  lemma StripOuter(content: string, r: string)
    requires content != "" ==> content[0] != '[' && content[|content| - 1] != ']'
    requires r != "" ==> r[|r| - 1] != ']'
    ensures Stripped("[" + content + "]" + r) == if r == "" then content else content + "]" + r
  {
    hide TrimLeft, TrimRight;
    var u := content + "]" + r;
    assert "[" + content + "]" + r == "[" + u;
    assert u[0] == if content == "" then ']' else content[0];
    OpenOnce(u);
    if r == "" {
      assert u == content + "]";
      CloseOnce(content);
    } else {
      assert u[|u| - 1] == r[|r| - 1];
      CloseKept(u);
    }
  }

  lemma CloseKept(u: string)
    requires u != "" && u[|u| - 1] != ']'
    ensures TrimRight(u, IsClose) == u
  {
  }

  /** The first and last characters of a list of element texts are not brackets. */
  lemma ListEdges(codec: Codec, content: string)
    requires Faithful(codec) && ReadAll(codec, SplitTop(content)).Some?
    ensures content != "" && content[0] != '[' && content[|content| - 1] != ']'
  {
    hide SplitTop, ReadAll, Faithful, ElementText, Join;
    var parts := SplitTop(content);
    var n := |parts| - 1;
    ReadAllClosed(codec, parts);
    JoinSplitTop(content);
    assert parts[0] in parts && parts[n] in parts;
    EdgeOf(parts[0]);
    EdgeOf(parts[n]);
    JoinFirstLast(parts);
  }

  lemma EdgeOf(s: string)
    requires ElementText(s)
    ensures s != "" && s[0] != '[' && s[|s| - 1] != ']'
  {
    hide *;
    var l, r := Around(s);
    TrimmedEdges(s);
    EdgesAround(l, TrimWs(s), r);
  }

  lemma TrimmedEdges(s: string)
    requires ElementText(s)
    ensures var t := TrimWs(s); t != "" && t[0] != '[' && t[|t| - 1] != ']'
  {
    hide TrimWs, Closed;
  }

  lemma EdgesAround(l: string, t: string, r: string)
    requires AllWs(l) && AllWs(r) && t != "" && t[0] != '[' && t[|t| - 1] != ']'
    ensures var s := l + t + r; s != "" && s[0] != '[' && s[|s| - 1] != ']'
  {
  }

  lemma {:induction false} JoinFirstLast(parts: seq<string>)
    requires parts != [] && parts[0] != "" && parts[|parts| - 1] != ""
    ensures var s := Join(parts, ',');
            s != "" && s[0] == parts[0][0] && s[|s| - 1] == parts[|parts| - 1][|parts[|parts| - 1]| - 1]
  {
    if |parts| > 1 {
      if parts[1] != "" {
        JoinFirstLast(parts[1..]);
      } else {
        JoinLast(parts[1..]);
      }
    }
  }

  lemma {:induction false} JoinLast(parts: seq<string>)
    requires parts != [] && parts[|parts| - 1] != ""
    ensures var s := Join(parts, ',');
            s != "" && s[|s| - 1] == parts[|parts| - 1][|parts[|parts| - 1]| - 1]
  {
    if |parts| > 1 {
      JoinLast(parts[1..]);
    }
  }

  /** A list and one more element read as the list's elements and that one. */
  lemma ReadSnoc(codec: Codec, content: string, s: string)
    requires Faithful(codec) && ReadAll(codec, SplitTop(content)).Some? && codec.dec(s).Some?
    ensures ReadAll(codec, SplitTop(content + [','] + s)) == Some(ReadAll(codec, SplitTop(content)).value + [codec.dec(s).value])
  {
    var parts := SplitTop(content);
    ReadAllClosed(codec, parts);
    assert ElementText(s);
    assert AllClosed(parts + [s]);
    JoinSplitTop(content);
    JoinSnoc(parts, s);
    hide Closed, SplitTop, Faithful;
    SplitTopJoin(parts + [s]);
    assert (parts + [s])[..|parts|] == parts;
  }

  /** Unbalanced content is not a list of elements. */
  lemma UnbalancedFails(codec: Codec, content: string)
    requires Faithful(codec) && Run(Out(0), content) != Out(0)
    ensures ReadAll(codec, SplitTop(content)) == None
  {
    var parts := SplitTop(content);
    JoinSplitTop(content);
    if ReadAll(codec, parts).Some? {
      ReadAllClosed(codec, parts);
      hide SplitTop, Faithful;
      RunJoin(parts);
    }
  }

  /** Content that opens with a nested array is not a list of elements. */
  lemma NestedFails(codec: Codec, l: string, rest: string)
    requires Faithful(codec) && AllWs(l)
    ensures ReadAll(codec, SplitTop(l + "[" + rest)) == None
  {
    var content := l + "[" + rest;
    var p := SplitTop(content)[0];
    FirstPartLonger(l, rest, Out(0));
    assert p == content[..|p|] && |p| > |l|;
    hide SplitTop, TopComma, Closed;
    NotAnElement(p, l);
    assert codec.dec(p) == None;
    hide Faithful;
    ReadAllFails(codec, SplitTop(content), p);
  }

  lemma NotAnElement(p: string, l: string)
    requires AllWs(l) && |p| > |l| && p[..|l|] == l && p[|l|] == '['
    ensures !ElementText(p)
  {
    hide Closed;
    var u := p[|l|..];
    assert p == l + u;
    TrimLeftWs(l, u);
    TrimRightKeeps(u);
  }

  lemma TrimRightKeeps(u: string)
    requires u != "" && u[0] == '['
    ensures TrimRight(u, IsWs) != "" && TrimRight(u, IsWs)[0] == '['
  {
    RightCut(u);
    assert !IsWs(u[0]);
  }

  lemma {:induction false} FirstPartLonger(l: string, rest: string, st: Scan)
    requires AllWs(l) && st == Out(0)
    ensures TopComma(l + "[" + rest, st) > |l|
  {
    if l != "" {
      FirstPartLonger(l[1..], rest, st);
      assert (l + "[" + rest)[1..] == l[1..] + "[" + rest;
    }
  }

  lemma BlankFails(codec: Codec, content: string, s: string)
    requires Faithful(codec) && AllWs(content)
    ensures ReadAll(codec, SplitTop(content + [','] + s)) == None
  {
    WsClosed(content, Out(0));
    TopCommaAfter(content, Out(0), s);
    var parts := SplitTop(content + [','] + s);
    assert (content + [','] + s)[..|content|] == content;
    assert parts[0] == content;
    TrimLeftWs(content, "");
    assert content + "" == content;
    hide SplitTop, Closed;
    assert TrimWs(content) == "";
    assert codec.dec(content) == None;
    ReadAllFails(codec, parts, content);
  }

  /** The text between the brackets after an append. */
  function Listed(a: string, s: string): string {
    Stripped(a) + [','] + s
  }

  lemma AppendedList(a: string, s: string)
    requires a != ""
    ensures Appended(a, s) == "[" + Listed(a, s) + "]" && !AllWs(Listed(a, s))
  {
    hide Stripped;
    var x := Stripped(a);
    JoinSnoc([x], s);
    assert [x] + [s] == [x, s];
    assert Join([x, s], ',') == x + [','] + s;
    assert Listed(a, s)[|x|] == ',';
  }

  lemma Regroup(l: string, content: string, r: string)
    ensures l + ("[" + content + "]") + r == l + ("[" + (content + "]" + r))
    ensures l == "" ==> l + ("[" + content + "]") + r == "[" + content + "]" + r
    ensures "[" + content + "]" + "" == "[" + content + "]"
  {
  }

  lemma RegroupTail(u: string, r: string, s: string)
    ensures u + r + [','] + s == u + (r + [','] + s)
  {
  }

  lemma LeadingCase(codec: Codec, a: string, l: string, rest: string, s: string)
    requires Faithful(codec) && AllWs(l) && l != "" && a == l + ("[" + rest)
    ensures ReadAll(codec, SplitTop(Listed(a, s))) == None && a[0] != '['
  {
    hide SplitTop, ReadAll, Faithful, Stripped;
    assert a[0] == l[0];
    assert a == l + "[" + rest;
    OpenKept(l, rest);
    var b := Stripped(a);
    var more := b[|l| + 1..] + [','] + s;
    assert b == b[..|l| + 1] + b[|l| + 1..];
    assert b + [','] + s == l + "[" + more;
    NestedFails(codec, l, more);
  }

  lemma TrailingCase(codec: Codec, a: string, content: string, r: string, s: string)
    requires Faithful(codec) && AllWs(r) && r != "" && a == "[" + content + "]" + r
    requires AllWs(content) || ReadAll(codec, SplitTop(content)).Some?
    requires content != "" ==> content[0] != '[' && content[|content| - 1] != ']'
    ensures ReadAll(codec, SplitTop(Listed(a, s))) == None && a[|a| - 1] != ']'
  {
    assert a[|a| - 1] == r[|r| - 1] && IsWs(r[|r| - 1]);
    hide SplitTop, ReadAll, Faithful, Stripped, AllWs;
    StripOuter(content, r);
    RegroupTail(content + "]", r, s);
    EarlyCloseFails(codec, content, r + [','] + s);
  }

  lemma BareCase(codec: Codec, a: string, content: string, s: string)
    requires Faithful(codec) && codec.dec(s).Some? && a == "[" + content + "]"
    requires AllWs(content) || ReadAll(codec, SplitTop(content)).Some?
    requires content != "" ==> content[0] != '[' && content[|content| - 1] != ']'
    ensures ReadAll(codec, SplitTop(Listed(a, s))) ==
              if AllWs(content) then None else Some(ReadAll(codec, SplitTop(content)).value + [codec.dec(s).value])
    ensures !AllWs(content) ==> ReadAll(codec, SplitTop(content)).value != []
    ensures a[0] == '[' && a[|a| - 1] == ']'
  {
    assert a == "[" + content + "]" + "";
    StripOuter(content, "");
    assert Listed(a, s) == content + [','] + s;
    hide SplitTop, ReadAll, Faithful, Stripped, Listed;
    if AllWs(content) {
      BlankFails(codec, content, s);
    } else {
      ReadAllClosed(codec, SplitTop(content));
      ReadSnoc(codec, content, s);
    }
  }

  /** A readable annotation: its array, and the white space around it. */
  lemma Readable(codec: Codec, a: string) returns (l: string, content: string, r: string)
    requires Faithful(codec) && Read(codec, a).Some?
    ensures AllWs(l) && AllWs(r) && a == l + ("[" + content + "]") + r
    ensures Read(codec, a) == if AllWs(content) then Some([]) else ReadAll(codec, SplitTop(content))
    ensures content != "" ==> content[0] != '[' && content[|content| - 1] != ']'
  {
    l, r := Around(a);
    var t := TrimWs(a);
    content := t[1..|t| - 1];
    assert |t| >= 2 && t[0] == '[' && t[|t| - 1] == ']';
    assert Read(codec, a) == if AllWs(content) then Some([]) else ReadAll(codec, SplitTop(content));
    hide TrimWs, ReadAll, SplitTop, Faithful, Read, AllWs;
    InBrackets(t);
    if !AllWs(content) {
      ListEdges(codec, content);
    } else {
      WsEdges(content);
    }
  }

  lemma InBrackets(t: string)
    requires |t| >= 2 && t[0] == '[' && t[|t| - 1] == ']'
    ensures t == "[" + t[1..|t| - 1] + "]"
  {
  }

  lemma WsEdges(s: string)
    requires AllWs(s)
    ensures s != "" ==> s[0] != '[' && s[|s| - 1] != ']'
  {
    if s != "" {
      assert IsWs(s[0]) && IsWs(s[|s| - 1]);
    }
  }

  /** Appending to any annotation that reads as an array: the new element joins the old ones if
      and only if the array is not empty and no white space stands around it; otherwise the
      annotation can no longer be read. */
  lemma AppendExact(codec: Codec, a: string, cs: seq<ConfigurationData>, c: ConfigurationData)
    requires Faithful(codec) && codec.enc(c).Some? && Read(codec, a) == Some(cs)
    ensures a != ""
    ensures Read(codec, Appended(a, codec.enc(c).value)) ==
              if cs != [] && a[0] == '[' && a[|a| - 1] == ']' then Some(cs + [c]) else None
  {
    var s := codec.enc(c).value;
    assert codec.dec(s) == Some(c);
    var l, content, r := Readable(codec, a);
    assert a != "";
    AppendedList(a, s);
    ReadBracketed(codec, Listed(a, s));
    hide TrimWs, Read, ReadAll, SplitTop, Faithful, Listed, Appended;
    hide AllWs;
    Regroup(l, content, r);
    if l != "" {
      LeadingCase(codec, a, l, content + "]" + r, s);
    } else if r != "" {
      TrailingCase(codec, a, content, r, s);
    } else {
      BareCase(codec, a, content, s);
    }
  }

  lemma OpenKept(l: string, rest: string)
    requires AllWs(l) && l != ""
    ensures |Stripped(l + "[" + rest)| > |l|
    ensures Stripped(l + "[" + rest)[..|l| + 1] == l + "["
  {
    var a := l + "[" + rest;
    assert a[0] == l[0] && IsWs(l[0]);
    assert TrimLeft(a, IsOpen) == a;
    assert a[|l|] == '[';
    hide TrimLeft, AllWs;
    TrimRightStops(a, |l|);
    var b := TrimRight(a, IsClose);
    hide TrimRight;
    assert b == a[..|b|];
    assert b[..|l| + 1] == a[..|l| + 1];
    assert a[..|l| + 1] == l + "[";
  }

  lemma {:induction false} TrimRightStops(s: string, k: nat)
    requires k < |s| && !IsClose(s[k])
    ensures |TrimRight(s, IsClose)| > k
    decreases |s|
  {
    if IsClose(s[|s| - 1]) {
      TrimRightStops(s[..|s| - 1], k);
    }
  }

  lemma EarlyCloseFails(codec: Codec, content: string, rest: string)
    requires Faithful(codec) && (AllWs(content) || ReadAll(codec, SplitTop(content)).Some?)
    ensures ReadAll(codec, SplitTop(content + "]" + rest)) == None
  {
    hide Faithful, ReadAll, SplitTop;
    ContentBalanced(codec, content);
    var tail := "]" + rest;
    assert content + "]" + rest == content + tail;
    RunConcat(Out(0), content, tail);
    BadTail(rest);
    hide Run;
    UnbalancedFails(codec, content + "]" + rest);
  }

  lemma BadTail(rest: string)
    ensures Run(Out(0), "]" + rest) == Bad
  {
    assert ("]" + rest)[1..] == rest;
    RunBad(rest);
  }

  lemma ContentBalanced(codec: Codec, content: string)
    requires Faithful(codec) && (AllWs(content) || ReadAll(codec, SplitTop(content)).Some?)
    ensures Run(Out(0), content) == Out(0)
  {
    if AllWs(content) {
      WsClosed(content, Out(0));
    } else {
      ReadAllClosed(codec, SplitTop(content));
      JoinSplitTop(content);
      hide Faithful, ReadAll, SplitTop;
      RunJoin(SplitTop(content));
    }
  }

  // ----- Any number of appends

  /** The annotation after appending all of `cs` to `a`. */
  ghost function AppendAll(codec: Codec, a: string, cs: seq<ConfigurationData>): string
    requires forall c :: c in cs ==> codec.enc(c).Some?
  {
    if cs == [] then a else Appended(AppendAll(codec, a, cs[..|cs| - 1]), codec.enc(cs[|cs| - 1]).value)
  }

  lemma AppendedEdges(a: string, s: string)
    ensures var b := Appended(a, s); |b| >= 2 && b[0] == '[' && b[|b| - 1] == ']'
  {
  }

  /** After any appends to no annotation, the text is a JSON array of what was appended, in order. */
  lemma {:induction false} AppendsRoundTrip(codec: Codec, cs: seq<ConfigurationData>)
    requires Faithful(codec) && cs != [] && forall c :: c in cs ==> codec.enc(c).Some?
    ensures Read(codec, AppendAll(codec, "", cs)) == Some(cs)
    ensures GetConfigData(codec, AppendAll(codec, "", cs)) == Some(cs)
  {
    hide Read, Appended, Faithful;
    var n := |cs| - 1;
    var c := cs[n];
    var s := codec.enc(c).value;
    var before := AppendAll(codec, "", cs[..n]);
    AppendedEdges(before, s);
    assert cs == cs[..n] + [c];
    if n == 0 {
      FirstAppend(codec, c);
    } else {
      AppendsRoundTrip(codec, cs[..n]);
      var b := cs[n - 1];
      assert before == Appended(AppendAll(codec, "", cs[..n][..n - 1]), codec.enc(cs[..n][n - 1]).value);
      AppendedEdges(AppendAll(codec, "", cs[..n][..n - 1]), codec.enc(cs[..n][n - 1]).value);
      AppendExact(codec, before, cs[..n], c);
    }
  }

  lemma FirstAppend(codec: Codec, c: ConfigurationData)
    requires Faithful(codec) && codec.enc(c).Some?
    ensures Read(codec, Appended("", codec.enc(c).value)) == Some([c])
  {
    var s := codec.enc(c).value;
    assert codec.dec(s) == Some(c) && Closed(s) by {
      assert ElementText(s);
    }
    assert !IsWs(s[0]);
    hide Faithful, Read, ReadAll;
    assert SplitTop(s) == [s];
    hide SplitTop, Closed;
    ReadBracketed(codec, s);
    assert Appended("", s) == "[" + s + "]";
    ReadOne(codec, s);
  }

  lemma ReadOne(codec: Codec, s: string)
    requires codec.dec(s).Some?
    ensures ReadAll(codec, [s]) == Some([codec.dec(s).value])
  {
    assert [s][..0] == [];
    assert ReadAll(codec, []) == Some([]);
    assert [] + [codec.dec(s).value] == [codec.dec(s).value];
  }

  /** An annotation that holds an empty array is spoiled by the next append. */
  lemma AppendToEmptyArray(codec: Codec, c: ConfigurationData)
    requires Faithful(codec) && codec.enc(c).Some?
    ensures Read(codec, "[]") == Some([]) && Read(codec, Appended("[]", codec.enc(c).value)) == None
  {
    hide Read, Appended, Faithful, ReadAll, SplitTop;
    ReadBracketed(codec, "");
    assert "[" + "" + "]" == "[]";
    AppendExact(codec, "[]", [], c);
  }

  /** Faithful printers exist: this one prints one configuration and no other. */
  function OneText(c: ConfigurationData): Codec {
    Codec(x => if x == c then Some("{}") else None, s => if s == "{}" then Some(c) else None)
  }

  lemma BracesClosed()
    ensures Closed("{}")
  {
    var s := "{}";
    assert s[1..] == "}" && "}"[1..] == "";
    assert Run(Out(0), s) == Run(Out(1), "}") == Run(Out(0), "");
    assert TopComma(s, Out(0)) == 1 + TopComma("}", Out(1)) == 2 + TopComma("", Out(0));
  }

  lemma BracesElement()
    ensures ElementText("{}")
  {
    hide Closed, TrimLeft, TrimRight;
    BracesClosed();
    TrimLeftStep("{}");
    TrimRightStep("{}");
  }

  lemma OneTextFaithful(c: ConfigurationData)
    ensures Faithful(OneText(c)) && Read(OneText(c), AppendAll(OneText(c), "", [c, c])) == Some([c, c])
  {
    BracesElement();
    hide Read, AppendAll, ElementText;
    assert Faithful(OneText(c));
    AppendsRoundTrip(OneText(c), [c, c]);
  }
}
