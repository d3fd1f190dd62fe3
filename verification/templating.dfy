/**
 Runtime templating on raw strings: the reference scanner, typed whole-string references, and passes
 that leave some namespaces alone.
 */
module Templating {
  import opened Prelude

  datatype Val = VNull | VBool(b: bool) | VInt(n: int) | VText(s: string) | VList(items: seq<Val>) | VDict(entries: seq<Entry>)

  datatype Entry = Entry(key: string, val: Val)

  // ---------- the reference pattern ----------

  predicate IsSpace(c: char) {
    c == ' ' || c == '\t' || c == '\n' || c == '\r' || c == '\U{000B}' || c == '\U{000C}'
  }

  predicate IsStart(c: char) {
    ('a' <= c <= 'z') || ('A' <= c <= 'Z') || c == '_'
  }

  predicate IsPart(c: char) {
    IsStart(c) || ('0' <= c <= '9')
  }

  /** The end of the run of `p` characters that starts at `i`. */
  function RunEnd(s: string, i: nat, p: char -> bool): (j: nat)
    requires i <= |s|
    ensures i <= j <= |s|
    decreases |s| - i
  {
    if i < |s| && p(s[i]) then RunEnd(s, i + 1, p) else i
  }

  /** The end of a dotted path that starts at `i`, or `i` when none does. */
  function PathEnd(s: string, i: nat): (j: nat)
    requires i <= |s|
    ensures i <= j <= |s|
    decreases |s| - i
  {
    if i < |s| && IsStart(s[i]) then
      var e := RunEnd(s, i + 1, IsPart);
      if GoesOn(s, e) then PathEnd(s, e + 1) else e
    else i
  }

  /** A dot at `e` and another identifier behind it. */
  predicate GoesOn(s: string, e: nat) {
    e + 1 < |s| && s[e] == '.' && IsStart(s[e + 1])
  }

  datatype Match = Match(path: string, end: nat)

  /** `{{ path }}` at the very start of `s`. */
  function MatchHead(s: string): (m: Option<Match>)
    ensures m.Some? ==> 4 < m.value.end <= |s|
  {
    if !(|s| >= 2 && s[0] == '{' && s[1] == '{') then None
    else
      var a := RunEnd(s, 2, IsSpace);
      var b := PathEnd(s, a);
      var c := RunEnd(s, b, IsSpace);
      if b > a && c + 1 < |s| && s[c] == '}' && s[c + 1] == '}' then Some(Match(s[a..b], c + 2)) else None
  }

  datatype Piece = Lit(c: char) | Ref(raw: string, path: string)

  /** The string cut into literal characters and references, leftmost matches first. */
  function Scan(s: string): seq<Piece> {
    if s == "" then []
    else
      match MatchHead(s)
      case Some(m) => [Ref(s[..m.end], m.path)] + Scan(s[m.end..])
      case None => [Lit(s[0])] + Scan(s[1..])
  }

  function Text(p: Piece): string {
    match p
    case Lit(c) => [c]
    case Ref(raw, _) => raw
  }

  function Print(ps: seq<Piece>): string {
    if ps == [] then "" else Text(ps[0]) + Print(ps[1..])
  }

  /** The whole string is one reference; like `$`, this overlooks a final newline. */
  predicate Whole(s: string) {
    MatchHead(s).Some? && (MatchHead(s).value.end == |s| || (MatchHead(s).value.end == |s| - 1 && s[|s| - 1] == '\n'))
  }

  // ---------- the scanner inverts printing ----------

  lemma {:induction false} RunEndAgrees(u: string, v: string, n: nat, i: nat, p: char -> bool)
    requires i <= n <= |u| && n <= |v| && u[..n] == v[..n]
    requires RunEnd(u, i, p) < n
    ensures RunEnd(v, i, p) == RunEnd(u, i, p)
    decreases n - i
  {
    SameBelow(u, v, n, i);
    if p(u[i]) {
      RunEndAgrees(u, v, n, i + 1, p);
    }
  }

  lemma {:induction false} PathEndAgrees(u: string, v: string, n: nat, i: nat)
    requires i <= n <= |u| && n <= |v| && u[..n] == v[..n]
    requires PathEnd(u, i) < n && u[PathEnd(u, i)] != '.'
    ensures PathEnd(v, i) == PathEnd(u, i)
    decreases n - i
  {
    SameBelow(u, v, n, i);
    if IsStart(u[i]) {
      var e := RunEnd(u, i + 1, IsPart);
      RunEndBelow(u, i + 1);
      RunEndAgrees(u, v, n, i + 1, IsPart);
      GoesOnAlike(u, v, n, e);
      PathStep(u, i, e);
      PathStep(v, i, e);
      if GoesOn(u, e) {
        PathEndAgrees(u, v, n, e + 1);
      }
    }
  }

  lemma PathStep(s: string, i: nat, e: nat)
    requires i < |s| && IsStart(s[i]) && e == RunEnd(s, i + 1, IsPart)
    ensures PathEnd(s, i) == if GoesOn(s, e) then PathEnd(s, e + 1) else e
  {
  }

  lemma GoesOnAlike(u: string, v: string, n: nat, e: nat)
    requires e < n <= |u| && n <= |v| && u[..n] == v[..n]
    requires GoesOn(u, e) ==> e + 1 < n
    requires u[e] == '.' ==> GoesOn(u, e)
    ensures GoesOn(v, e) <==> GoesOn(u, e)
  {
    SameBelow(u, v, n, e);
    if e + 1 < n {
      SameBelow(u, v, n, e + 1);
    }
  }

  lemma {:induction false} RunEndBelow(s: string, i: nat)
    requires 0 < i <= |s| && IsStart(s[i - 1])
    ensures RunEnd(s, i, IsPart) <= PathEnd(s, i - 1)
  {
  }

  lemma {:induction false} RunEndStops(s: string, i: nat, p: char -> bool)
    requires i <= |s|
    ensures RunEnd(s, i, p) < |s| ==> !p(s[RunEnd(s, i, p)])
    decreases |s| - i
  {
    if i < |s| && p(s[i]) {
      RunEndStops(s, i + 1, p);
    }
  }

  /** Where the parts of a match end; its path is not followed by a dot. */
  lemma {:induction false} MatchParts(u: string)
    requires MatchHead(u).Some?
    ensures |u| >= 2 && u[0] == '{' && u[1] == '{'
    ensures var a := RunEnd(u, 2, IsSpace);
            var b := PathEnd(u, a);
            var c := RunEnd(u, b, IsSpace);
            && a < b <= c < c + 1 < |u| && u[c] == '}' && u[c + 1] == '}' && u[b] != '.'
            && MatchHead(u) == Some(Match(u[a..b], c + 2))
  {
    var b := PathEnd(u, RunEnd(u, 2, IsSpace));
    if b < RunEnd(u, b, IsSpace) {
      FirstOfRun(u, b, IsSpace);
    }
  }

  /** Two strings with a common start run through the three parts of a match alike. */
  lemma PartsAgree(u: string, v: string, n: nat)
    requires n <= |u| && n <= |v| && u[..n] == v[..n]
    requires MatchHead(u).Some? && MatchHead(u).value.end <= n
    ensures MatchHead(v).Some? && MatchHead(v) == MatchHead(u)
  {
    MatchParts(u);
    var a := RunEnd(u, 2, IsSpace);
    var b := PathEnd(u, a);
    var c := RunEnd(u, b, IsSpace);
    SameBelow(u, v, n, 0);
    SameBelow(u, v, n, 1);
    SameBelow(u, v, n, b);
    SameBelow(u, v, n, c);
    SameBelow(u, v, n, c + 1);
    RunEndAgrees(u, v, n, 2, IsSpace);
    PathEndAgrees(u, v, n, a);
    RunEndAgrees(u, v, n, b, IsSpace);
    SameSlice(u, v, n, a, b);
  }

  lemma SameBelow(u: string, v: string, n: nat, i: nat)
    requires i < n <= |u| && n <= |v| && u[..n] == v[..n]
    ensures u[i] == v[i]
  {
    assert u[i] == u[..n][i] == v[..n][i];
  }

  lemma SameSlice(u: string, v: string, n: nat, a: nat, b: nat)
    requires a <= b <= n <= |u| && n <= |v| && u[..n] == v[..n]
    ensures u[a..b] == v[a..b]
  {
    assert u[a..b] == u[..n][a..b] == v[..n][a..b] == v[a..b];
  }

  /** A match looks at no character behind its end. */
  lemma MatchAgrees(s: string, t: string)
    requires |s| <= |t| && t[..|s|] == s
    requires MatchHead(s).Some? || (MatchHead(t).Some? && MatchHead(t).value.end <= |s|)
    ensures MatchHead(s) == MatchHead(t)
  {
    assert s[..|s|] == s;
    if MatchHead(s).Some? {
      PartsAgree(s, t, |s|);
    } else {
      PartsAgree(t, s, |s|);
    }
  }

  lemma {:induction false} FirstOfRun(s: string, i: nat, p: char -> bool)
    requires i <= |s| && i < RunEnd(s, i, p)
    ensures p(s[i])
  {
  }

  /** A reference piece that the scanner could have produced. */
  predicate Genuine(p: Piece) {
    p.Ref? ==> MatchHead(p.raw) == Some(Match(p.path, |p.raw|))
  }

  predicate AllGenuine(ps: seq<Piece>) {
    forall i :: 0 <= i < |ps| ==> Genuine(ps[i])
  }

  /** Literal characters that cannot begin or end a reference. */
  predicate NoStrayBraces(ps: seq<Piece>) {
    forall i :: 0 <= i < |ps| && ps[i].Lit? ==> ps[i].c != '{' && ps[i].c != '}'
  }

  lemma {:induction false} ScanGenuine(s: string)
    ensures AllGenuine(Scan(s)) && Print(Scan(s)) == s
    decreases |s|
  {
    if s != "" {
      match MatchHead(s) {
        case Some(m) =>
          ScanGenuine(s[m.end..]);
          MatchAgrees(s[..m.end], s);
          ConsScan(Ref(s[..m.end], m.path), Scan(s[m.end..]));
          TakeDrop(s, m.end);
        case None =>
          ScanGenuine(s[1..]);
          ConsScan(Lit(s[0]), Scan(s[1..]));
          TakeDrop(s, 1);
      }
    }
  }

  lemma {:induction false} ConsScan(p: Piece, ps: seq<Piece>)
    ensures ([p] + ps)[1..] == ps && Print([p] + ps) == Text(p) + Print(ps)
    ensures AllGenuine([p] + ps) <==> Genuine(p) && AllGenuine(ps)
    ensures NoStrayBraces([p] + ps) <==> (p.Lit? ==> p.c != '{' && p.c != '}') && NoStrayBraces(ps)
  {
    var all := [p] + ps;
    assert all[1..] == ps && all[0] == p;
    assert forall i :: 0 <= i < |ps| ==> ps[i] == all[i + 1];
    assert forall i :: 0 < i < |all| ==> all[i] == ps[i - 1];
  }

  /** Printing and scanning again gives the same pieces. */
  lemma {:induction false} ScanPrint(ps: seq<Piece>)
    requires AllGenuine(ps) && NoStrayBraces(ps)
    ensures Scan(Print(ps)) == ps
    decreases |ps|
  {
    if ps != [] {
      var p, rest := ps[0], ps[1..];
      assert ps == [p] + rest;
      ConsScan(p, rest);
      ScanPrint(rest);
      var s := Print(ps);
      match p {
        case Lit(c) => assert s[1..] == Print(rest);
        case Ref(raw, path) =>
          assert s[..|raw|] == raw && s[|raw|..] == Print(rest);
          MatchAgrees(raw, s);
      }
    }
  }

  // ---------- resolving and substituting ----------

  function HeadOf(path: string): string {
    path[..RunEnd(path, 0, NotDot)]
  }

  function NotDot(c: char): bool { c != '.' }

  /** `path.split(".")`. */
  function Segments(path: string): (r: seq<string>)
    ensures r != [] && r[0] == HeadOf(path)
    decreases |path|
  {
    var e := RunEnd(path, 0, NotDot);
    if e == |path| then [path] else [path[..e]] + Segments(path[e + 1..])
  }

  function Lookup(entries: seq<Entry>, key: string): Option<Val> {
    if entries == [] then None
    else if entries[0].key == key then Some(entries[0].val)
    else Lookup(entries[1..], key)
  }

  /** Walking down nested dictionaries. */
  function Walk(v: Val, segments: seq<string>): Option<Val>
    decreases |segments|
  {
    if segments == [] then Some(v)
    else if !v.VDict? then None
    else
      match Lookup(v.entries, segments[0])
      case None => None
      case Some(next) => Walk(next, segments[1..])
  }

  type Context = seq<Entry>

  function Resolve(path: string, ctx: Context): Option<Val> {
    Walk(VDict(ctx), Segments(path))
  }

  /** `_resolve_path`. */
  method ResolvePath(path: string, ctx: Context) returns (r: Option<Val>)
    ensures r == Resolve(path, ctx)
  {
    var cur, left := VDict(ctx), Segments(path);
    while left != []
      invariant Walk(cur, left) == Resolve(path, ctx)
      decreases |left|
    {
      if !cur.VDict? {
        return None;
      }
      var next := Lookup(cur.entries, left[0]);
      if next.None? {
        return None;
      }
      cur, left := next.value, left[1..];
    }
    return Some(cur);
  }

  /** `str` of a value; on strings the string itself. */
  ghost predicate ShowsText(show: Val -> string) {
    forall s :: show(VText(s)) == s
  }

  function Lits(s: string): (r: seq<Piece>)
    ensures |r| == |s| && forall i :: 0 <= i < |s| ==> r[i] == Lit(s[i])
  {
    seq(|s|, i requires 0 <= i < |s| => Lit(s[i]))
  }

  /** Which references a pass leaves alone: those of some namespaces, or of all but some. */
  datatype Scope = AllBut(deferred: set<string>) | Only(active: set<string>)

  predicate Skips(scope: Scope, head: string) {
    match scope
    case AllBut(deferred) => head in deferred
    case Only(active) => head !in active
  }

  /** The pieces after one pass: resolved references become literal text, deferred ones stay. */
  function RenderPieces(ps: seq<Piece>, ctx: Context, scope: Scope, show: Val -> string): Option<seq<Piece>> {
    if ps == [] then Some([])
    else
      var rest := RenderPieces(ps[1..], ctx, scope, show);
      match ps[0]
      case Lit(c) => if rest.None? then None else Some([Lit(c)] + rest.value)
      case Ref(raw, path) =>
        if Skips(scope, HeadOf(path)) then if rest.None? then None else Some([Ref(raw, path)] + rest.value)
        else
          var v := Resolve(path, ctx);
          if v.None? || rest.None? then None else Some(Lits(show(v.value)) + rest.value)
  }

  /** `_substitute`; `None` is the error for an undefined reference. */
  function Substitute(s: string, ctx: Context, scope: Scope, show: Val -> string): Option<Val> {
    if Whole(s) then
      var path := MatchHead(s).value.path;
      if Skips(scope, HeadOf(path)) then Some(VText(s)) else Resolve(path, ctx)
    else
      match RenderPieces(Scan(s), ctx, scope, show)
      case None => None
      case Some(ps) => Some(VText(Print(ps)))
  }

  /** `render_templates`. */
  function Render(v: Val, ctx: Context, scope: Scope, show: Val -> string): Option<Val>
    decreases v, 1
  {
    match v
    case VText(s) => Substitute(s, ctx, scope, show)
    case VList(items) =>
      (match RenderList(items, ctx, scope, show) case None => None case Some(out) => Some(VList(out)))
    case VDict(entries) =>
      (match RenderEntries(entries, ctx, scope, show) case None => None case Some(out) => Some(VDict(out)))
    case _ => Some(v)
  }

  function RenderList(items: seq<Val>, ctx: Context, scope: Scope, show: Val -> string): Option<seq<Val>>
    decreases items, 0
  {
    if items == [] then Some([])
    else
      var first := Render(items[0], ctx, scope, show);
      var rest := RenderList(items[1..], ctx, scope, show);
      if first.None? || rest.None? then None else Some([first.value] + rest.value)
  }

  function RenderEntries(entries: seq<Entry>, ctx: Context, scope: Scope, show: Val -> string): Option<seq<Entry>>
    decreases entries, 0
  {
    if entries == [] then Some([])
    else
      var first := Render(entries[0].val, ctx, scope, show);
      var rest := RenderEntries(entries[1..], ctx, scope, show);
      if first.None? || rest.None? then None else Some([Entry(entries[0].key, first.value)] + rest.value)
  }

  // ---------- values without braces are fixed points ----------

  predicate PlainText(s: string) {
    forall i :: 0 <= i < |s| ==> s[i] != '{' && s[i] != '}'
  }

  /** No string inside the value holds a brace. */
  predicate Plain(v: Val)
    decreases v, 1
  {
    match v
    case VText(s) => PlainText(s)
    case VList(items) => PlainList(items)
    case VDict(entries) => PlainEntries(entries)
    case _ => true
  }

  predicate PlainList(items: seq<Val>)
    decreases items, 0
  {
    items == [] || (Plain(items[0]) && PlainList(items[1..]))
  }

  predicate PlainEntries(entries: seq<Entry>)
    decreases entries, 0
  {
    entries == [] || (Plain(entries[0].val) && PlainEntries(entries[1..]))
  }

  lemma {:induction false} PrintLits(s: string)
    ensures Print(Lits(s)) == s
  {
    if s != "" {
      PrintLits(s[1..]);
      assert Lits(s) == [Lit(s[0])] + Lits(s[1..]);
      ConsScan(Lit(s[0]), Lits(s[1..]));
      assert s == [s[0]] + s[1..];
    }
  }

  lemma {:induction false} RenderLits(s: string, ctx: Context, scope: Scope, show: Val -> string)
    ensures RenderPieces(Lits(s), ctx, scope, show) == Some(Lits(s))
  {
    if s != "" {
      RenderLits(s[1..], ctx, scope, show);
      assert Lits(s) == [Lit(s[0])] + Lits(s[1..]);
      assert Lits(s)[1..] == Lits(s[1..]);
    }
  }

  lemma PlainSubstitute(s: string, ctx: Context, scope: Scope, show: Val -> string)
    requires PlainText(s)
    ensures Substitute(s, ctx, scope, show) == Some(VText(s))
  {
    PrintLits(s);
    ScanPrint(Lits(s));
    RenderLits(s, ctx, scope, show);
  }

  lemma {:induction false} PlainRender(v: Val, ctx: Context, scope: Scope, show: Val -> string)
    requires Plain(v)
    ensures Render(v, ctx, scope, show) == Some(v)
    decreases v, 1
  {
    match v {
      case VText(s) => PlainSubstitute(s, ctx, scope, show);
      case VList(items) => PlainRenderList(items, ctx, scope, show);
      case VDict(entries) => PlainRenderEntries(entries, ctx, scope, show);
      case _ =>
    }
  }

  lemma {:induction false} PlainRenderList(items: seq<Val>, ctx: Context, scope: Scope, show: Val -> string)
    requires PlainList(items)
    ensures RenderList(items, ctx, scope, show) == Some(items)
    decreases items, 0
  {
    if items != [] {
      PlainRender(items[0], ctx, scope, show);
      PlainRenderList(items[1..], ctx, scope, show);
      assert items == [items[0]] + items[1..];
    }
  }

  lemma {:induction false} PlainRenderEntries(entries: seq<Entry>, ctx: Context, scope: Scope, show: Val -> string)
    requires PlainEntries(entries)
    ensures RenderEntries(entries, ctx, scope, show) == Some(entries)
    decreases entries, 0
  {
    if entries != [] {
      PlainRender(entries[0].val, ctx, scope, show);
      PlainRenderEntries(entries[1..], ctx, scope, show);
      assert entries == [entries[0]] + entries[1..];
    }
  }

  // ---------- merged contexts ----------

  lemma {:induction false} LookupConcat(a: seq<Entry>, b: seq<Entry>, key: string)
    ensures Lookup(a + b, key) == if Lookup(a, key).Some? then Lookup(a, key) else Lookup(b, key)
  {
    if a == [] {
      assert a + b == b;
    } else {
      assert (a + b)[1..] == a[1..] + b;
      LookupConcat(a[1..], b, key);
    }
  }

  lemma {:induction false} LookupMissing(a: seq<Entry>, key: string)
    requires forall i :: 0 <= i < |a| ==> a[i].key != key
    ensures Lookup(a, key).None?
  {
    if a != [] {
      LookupMissing(a[1..], key);
    }
  }

  lemma {:induction false} RenderConcat(a: seq<Piece>, b: seq<Piece>, ctx: Context, scope: Scope, show: Val -> string)
    ensures RenderPieces(a + b, ctx, scope, show) ==
            var x, y := RenderPieces(a, ctx, scope, show), RenderPieces(b, ctx, scope, show);
            if x.None? || y.None? then None else Some(x.value + y.value)
  {
    if a == [] {
      assert a + b == b;
      var y := RenderPieces(b, ctx, scope, show);
      assert y.Some? ==> [] + y.value == y.value;
    } else {
      assert (a + b)[1..] == a[1..] + b;
      RenderConcat(a[1..], b, ctx, scope, show);
      var x, y := RenderPieces(a[1..], ctx, scope, show), RenderPieces(b, ctx, scope, show);
      if x.Some? && y.Some? {
        assert forall h: seq<Piece> :: h + (x.value + y.value) == h + x.value + y.value;
      }
    }
  }

  // ---------- namespaces ----------

  /** The leading segments of the references in a text. */
  function Heads(s: string): set<string> {
    HeadsOf(Scan(s))
  }

  function HeadsOf(ps: seq<Piece>): set<string> {
    set i | 0 <= i < |ps| && ps[i].Ref? :: HeadOf(ps[i].path)
  }

  /** `template_namespaces`. */
  function Namespaces(v: Val): set<string>
    decreases v, 1
  {
    match v
    case VText(s) => Heads(s)
    case VList(items) => ListNamespaces(items)
    case VDict(entries) => EntryNamespaces(entries)
    case _ => {}
  }

  function ListNamespaces(items: seq<Val>): set<string>
    decreases items, 0
  {
    if items == [] then {} else Namespaces(items[0]) + ListNamespaces(items[1..])
  }

  function EntryNamespaces(entries: seq<Entry>): set<string>
    decreases entries, 0
  {
    if entries == [] then {} else Namespaces(entries[0].val) + EntryNamespaces(entries[1..])
  }

  /** Both scopes skip the same of the given namespaces. */
  predicate SameOn(a: Scope, b: Scope, heads: set<string>) {
    forall h :: h in heads ==> (Skips(a, h) <==> Skips(b, h))
  }

  predicate SkipsAll(scope: Scope, heads: set<string>) {
    forall h :: h in heads ==> Skips(scope, h)
  }

  lemma {:induction false} HeadsCons(ps: seq<Piece>)
    requires ps != []
    ensures HeadsOf(ps) == (if ps[0].Ref? then {HeadOf(ps[0].path)} else {}) + HeadsOf(ps[1..])
  {
    var rest := ps[1..];
    forall i | 0 <= i < |rest| ensures rest[i] == ps[i + 1] {}
    forall h | h in HeadsOf(ps) ensures h in (if ps[0].Ref? then {HeadOf(ps[0].path)} else {}) + HeadsOf(rest) {
      var i :| 0 <= i < |ps| && ps[i].Ref? && HeadOf(ps[i].path) == h;
      assert i > 0 ==> rest[i - 1] == ps[i];
    }
  }

  lemma {:induction false} PiecesLocal(ps: seq<Piece>, ctx: Context, a: Scope, b: Scope, show: Val -> string)
    requires SameOn(a, b, HeadsOf(ps))
    ensures RenderPieces(ps, ctx, a, show) == RenderPieces(ps, ctx, b, show)
    decreases |ps|
  {
    if ps != [] {
      HeadsCons(ps);
      PiecesLocal(ps[1..], ctx, a, b, show);
    }
  }

  lemma {:induction false} PiecesUntouched(ps: seq<Piece>, ctx: Context, scope: Scope, show: Val -> string)
    requires SkipsAll(scope, HeadsOf(ps))
    ensures RenderPieces(ps, ctx, scope, show) == Some(ps)
    decreases |ps|
  {
    if ps != [] {
      HeadsCons(ps);
      PiecesUntouched(ps[1..], ctx, scope, show);
      assert ps == [ps[0]] + ps[1..];
    }
  }

  /** A whole-string reference is cut into that reference and at most a final newline. */
  lemma {:induction false} WholeScan(s: string)
    requires Whole(s)
    ensures var m := MatchHead(s).value;
            Scan(s) == [Ref(s[..m.end], m.path)] + (if m.end == |s| then [] else [Lit('\n')])
    ensures Heads(s) == {HeadOf(MatchHead(s).value.path)}
  {
    var m := MatchHead(s).value;
    if m.end < |s| {
      assert s[m.end..] == "\n";
      assert Scan("\n") == [Lit('\n')] + Scan("\n"[1..]);
      assert "\n"[1..] == "";
    }
    assert Scan(s)[0] == Ref(s[..m.end], m.path);
  }

  lemma {:induction false} SubstituteLocal(s: string, ctx: Context, a: Scope, b: Scope, show: Val -> string)
    requires SameOn(a, b, Heads(s))
    ensures Substitute(s, ctx, a, show) == Substitute(s, ctx, b, show)
  {
    if Whole(s) {
      WholeScan(s);
    } else {
      PiecesLocal(Scan(s), ctx, a, b, show);
    }
  }

  lemma {:induction false} SubstituteUntouched(s: string, ctx: Context, scope: Scope, show: Val -> string)
    requires SkipsAll(scope, Heads(s))
    ensures Substitute(s, ctx, scope, show) == Some(VText(s))
  {
    if Whole(s) {
      WholeScan(s);
    } else {
      PiecesUntouched(Scan(s), ctx, scope, show);
      ScanGenuine(s);
    }
  }

  /** What a pass does depends only on which of the value's own namespaces it skips. */
  lemma {:induction false} RenderLocal(v: Val, ctx: Context, a: Scope, b: Scope, show: Val -> string)
    requires SameOn(a, b, Namespaces(v))
    ensures Render(v, ctx, a, show) == Render(v, ctx, b, show)
    decreases v, 1
  {
    match v {
      case VText(s) => SubstituteLocal(s, ctx, a, b, show);
      case VList(items) => RenderListLocal(items, ctx, a, b, show);
      case VDict(entries) => RenderEntriesLocal(entries, ctx, a, b, show);
      case _ =>
    }
  }

  lemma {:induction false} RenderListLocal(items: seq<Val>, ctx: Context, a: Scope, b: Scope, show: Val -> string)
    requires SameOn(a, b, ListNamespaces(items))
    ensures RenderList(items, ctx, a, show) == RenderList(items, ctx, b, show)
    decreases items, 0
  {
    if items != [] {
      RenderLocal(items[0], ctx, a, b, show);
      RenderListLocal(items[1..], ctx, a, b, show);
    }
  }

  lemma {:induction false} RenderEntriesLocal(entries: seq<Entry>, ctx: Context, a: Scope, b: Scope, show: Val -> string)
    requires SameOn(a, b, EntryNamespaces(entries))
    ensures RenderEntries(entries, ctx, a, show) == RenderEntries(entries, ctx, b, show)
    decreases entries, 0
  {
    if entries != [] {
      RenderLocal(entries[0].val, ctx, a, b, show);
      RenderEntriesLocal(entries[1..], ctx, a, b, show);
    }
  }

  /** A pass that skips everything a value names leaves it as it is. */
  lemma {:induction false} RenderUntouched(v: Val, ctx: Context, scope: Scope, show: Val -> string)
    requires SkipsAll(scope, Namespaces(v))
    ensures Render(v, ctx, scope, show) == Some(v)
    decreases v, 1
  {
    match v {
      case VText(s) => SubstituteUntouched(s, ctx, scope, show);
      case VList(items) => RenderListUntouched(items, ctx, scope, show);
      case VDict(entries) => RenderEntriesUntouched(entries, ctx, scope, show);
      case _ =>
    }
  }

  lemma {:induction false} RenderListUntouched(items: seq<Val>, ctx: Context, scope: Scope, show: Val -> string)
    requires SkipsAll(scope, ListNamespaces(items))
    ensures RenderList(items, ctx, scope, show) == Some(items)
    decreases items, 0
  {
    if items != [] {
      RenderUntouched(items[0], ctx, scope, show);
      RenderListUntouched(items[1..], ctx, scope, show);
      assert items == [items[0]] + items[1..];
    }
  }

  lemma {:induction false} RenderEntriesUntouched(entries: seq<Entry>, ctx: Context, scope: Scope, show: Val -> string)
    requires SkipsAll(scope, EntryNamespaces(entries))
    ensures RenderEntries(entries, ctx, scope, show) == Some(entries)
    decreases entries, 0
  {
    if entries != [] {
      RenderUntouched(entries[0].val, ctx, scope, show);
      RenderEntriesUntouched(entries[1..], ctx, scope, show);
      assert entries == [entries[0]] + entries[1..];
    }
  }
}
