/**
 Rendering at load time and again per task: the first pass defers the execution-time namespaces,
 the second resolves only those that are active and leaves every other reference alone. When the
 two passes equal one rendering with both contexts.
 */
module Staging {
  import opened Prelude
  import opened Templating

  /** The context and deferred namespaces of the load-time pass, and the context of the task's pass. */
  datatype Plan = Plan(early: Context, deferred: set<string>, late: Context, show: Val -> string)

  function Keys(ctx: Context): set<string> {
    set i | 0 <= i < |ctx| :: ctx[i].key
  }

  /** The first context holds no deferred namespace, the second holds deferred ones only. */
  ghost predicate Staged(w: Plan) {
    && (forall i :: 0 <= i < |w.early| ==> w.early[i].key !in w.deferred)
    && (forall i :: 0 <= i < |w.late| ==> w.late[i].key in w.deferred)
    && ShowsText(w.show)
  }

  // ---------- the two passes ----------

  /** `_render_task_xcom`: untouched when no active namespace is referenced, else all others are deferred. */
  function TaskRender(v: Val, ctx: Context, show: Val -> string): Option<Val> {
    if Keys(ctx) !! Namespaces(v) then Some(v)
    else Render(v, ctx, AllBut(Namespaces(v) - Keys(ctx)), show)
  }

  /** It resolves exactly the references into its context, however much else the task names. */
  lemma {:induction false} TaskRenderIs(v: Val, ctx: Context, show: Val -> string)
    ensures TaskRender(v, ctx, show) == Render(v, ctx, Only(Keys(ctx)), show)
  {
    if Keys(ctx) !! Namespaces(v) {
      RenderUntouched(v, ctx, Only(Keys(ctx)), show);
    } else {
      RenderLocal(v, ctx, AllBut(Namespaces(v) - Keys(ctx)), Only(Keys(ctx)), show);
    }
  }

  function First(v: Val, w: Plan): Option<Val> {
    Render(v, w.early, AllBut(w.deferred), w.show)
  }

  function Second(v: Val, w: Plan): Option<Val> {
    Render(v, w.late, Only(Keys(w.late)), w.show)
  }

  function Twice(v: Val, w: Plan): Option<Val> {
    match First(v, w)
    case None => None
    case Some(mid) => TaskRender(mid, w.late, w.show)
  }

  /** One rendering with both contexts and nothing deferred. */
  function Once(v: Val, w: Plan): Option<Val> {
    Render(v, w.early + w.late, AllBut({}), w.show)
  }

  // ---------- references ----------

  /** Resolved by neither pass: deferred by the first, not active in the second. */
  predicate Stray(path: string, w: Plan) {
    HeadOf(path) in w.deferred && HeadOf(path) !in Keys(w.late)
  }

  /** Undefined in the pass it belongs to. */
  predicate Missing(path: string, w: Plan) {
    if HeadOf(path) !in w.deferred then Resolve(path, w.early).None?
    else HeadOf(path) in Keys(w.late) && Resolve(path, w.late).None?
  }

  predicate MissingEarly(path: string, w: Plan) {
    HeadOf(path) !in w.deferred && Resolve(path, w.early).None?
  }

  predicate AnyStray(ps: seq<Piece>, w: Plan) {
    exists i :: 0 <= i < |ps| && ps[i].Ref? && Stray(ps[i].path, w)
  }

  predicate AnyMissing(ps: seq<Piece>, w: Plan) {
    exists i :: 0 <= i < |ps| && ps[i].Ref? && Missing(ps[i].path, w)
  }

  predicate AnyMissingEarly(ps: seq<Piece>, w: Plan) {
    exists i :: 0 <= i < |ps| && ps[i].Ref? && MissingEarly(ps[i].path, w)
  }

  lemma {:induction false} KeyMissing(ctx: Context, key: string)
    ensures key !in Keys(ctx) ==> Lookup(ctx, key).None?
  {
    if key !in Keys(ctx) {
      forall i | 0 <= i < |ctx| ensures ctx[i].key != key {}
      LookupMissing(ctx, key);
    }
  }

  /** In the merged context a reference resolves as in the pass it belongs to. */
  lemma ResolveMerged(path: string, w: Plan)
    requires Staged(w)
    ensures Resolve(path, w.early + w.late) == if HeadOf(path) in w.deferred then Resolve(path, w.late) else Resolve(path, w.early)
    ensures Stray(path, w) ==> Resolve(path, w.late).None?
    ensures Resolve(path, w.early + w.late).None? <==> Missing(path, w) || Stray(path, w)
  {
    var head := HeadOf(path);
    assert Segments(path)[0] == head;
    LookupConcat(w.early, w.late, head);
    KeyMissing(w.late, head);
    if head in w.deferred {
      LookupMissing(w.early, head);
    } else {
      LookupMissing(w.late, head);
    }
  }

  lemma {:induction false} AnyCons(ps: seq<Piece>, w: Plan)
    requires ps != []
    ensures AnyStray(ps, w) <==> (ps[0].Ref? && Stray(ps[0].path, w)) || AnyStray(ps[1..], w)
    ensures AnyMissing(ps, w) <==> (ps[0].Ref? && Missing(ps[0].path, w)) || AnyMissing(ps[1..], w)
    ensures AnyMissingEarly(ps, w) <==> (ps[0].Ref? && MissingEarly(ps[0].path, w)) || AnyMissingEarly(ps[1..], w)
  {
    var rest := ps[1..];
    forall i | 0 <= i < |rest| ensures rest[i] == ps[i + 1] {}
    forall i | 0 < i < |ps| ensures ps[i] == rest[i - 1] {}
  }

  // ---------- piece by piece ----------

  function FirstPieces(ps: seq<Piece>, w: Plan): Option<seq<Piece>> {
    RenderPieces(ps, w.early, AllBut(w.deferred), w.show)
  }

  function SecondPieces(ps: seq<Piece>, w: Plan): Option<seq<Piece>> {
    RenderPieces(ps, w.late, Only(Keys(w.late)), w.show)
  }

  function OncePieces(ps: seq<Piece>, w: Plan): Option<seq<Piece>> {
    RenderPieces(ps, w.early + w.late, AllBut({}), w.show)
  }

  lemma {:induction false} PiecesFail(ps: seq<Piece>, w: Plan)
    requires Staged(w)
    ensures FirstPieces(ps, w).None? <==> AnyMissingEarly(ps, w)
    ensures OncePieces(ps, w).None? <==> AnyMissing(ps, w) || AnyStray(ps, w)
    decreases |ps|
  {
    if ps != [] {
      AnyCons(ps, w);
      PiecesFail(ps[1..], w);
      if ps[0].Ref? {
        ResolveMerged(ps[0].path, w);
      }
    }
  }

  /**
   Reference by reference the two passes are one pass over both contexts, unless a reference is
   stray: one pass fails on it, the two leave it where it is.
   */
  lemma {:induction false} PiecesTwice(ps: seq<Piece>, w: Plan)
    requires Staged(w) && FirstPieces(ps, w).Some?
    ensures var twice := SecondPieces(FirstPieces(ps, w).value, w);
            && (twice.None? <==> AnyMissing(ps, w))
            && (!AnyStray(ps, w) ==> twice == OncePieces(ps, w))
    decreases |ps|
  {
    if ps != [] {
      AnyCons(ps, w);
      PiecesTwice(ps[1..], w);
      var rest := FirstPieces(ps[1..], w).value;
      if ps[0].Ref? {
        ResolveMerged(ps[0].path, w);
      }
      if ps[0].Lit? || HeadOf(ps[0].path) in w.deferred {
        assert ([ps[0]] + rest)[1..] == rest;
      } else {
        var v := Resolve(ps[0].path, w.early).value;
        RenderConcat(Lits(w.show(v)), rest, w.late, Only(Keys(w.late)), w.show);
        RenderLits(w.show(v), w.late, Only(Keys(w.late)), w.show);
      }
    }
  }

  // ---------- one string ----------

  /** Values the first pass splices into text hold no braces. */
  ghost predicate SplicesPlain(ps: seq<Piece>, w: Plan) {
    forall i :: 0 <= i < |ps| && ps[i].Ref? && HeadOf(ps[i].path) !in w.deferred && Resolve(ps[i].path, w.early).Some?
      ==> PlainText(w.show(Resolve(ps[i].path, w.early).value))
  }

  lemma {:induction false} RenderedClean(ps: seq<Piece>, w: Plan)
    requires AllGenuine(ps) && NoStrayBraces(ps) && SplicesPlain(ps, w) && FirstPieces(ps, w).Some?
    ensures AllGenuine(FirstPieces(ps, w).value) && NoStrayBraces(FirstPieces(ps, w).value)
    decreases |ps|
  {
    if ps != [] {
      var rest := ps[1..];
      assert ps == [ps[0]] + rest;
      ConsScan(ps[0], rest);
      forall i | 0 <= i < |rest| ensures rest[i] == ps[i + 1] {}
      RenderedClean(rest, w);
      if ps[0].Lit? || HeadOf(ps[0].path) in w.deferred {
        ConsScan(ps[0], FirstPieces(rest, w).value);
      }
    }
  }

  /** A string that is not one whole reference, without stray braces of its own or of values spliced into it. */
  ghost predicate CleanString(s: string, w: Plan) {
    !Whole(s) ==> NoStrayBraces(Scan(s)) && SplicesPlain(Scan(s), w)
  }

  /** The value a whole-string reference resolves to in the first pass. */
  function Inserted(s: string, w: Plan): Option<Val> {
    if Whole(s) && HeadOf(MatchHead(s).value.path) !in w.deferred then Resolve(MatchHead(s).value.path, w.early) else None
  }

  /** The second pass leaves that value as it is. */
  predicate Settles(s: string, w: Plan) {
    Inserted(s, w).Some? ==> Second(Inserted(s, w).value, w) == Inserted(s, w)
  }

  /** The second pass fails on that value. */
  predicate Breaks(s: string, w: Plan) {
    Inserted(s, w).Some? && Second(Inserted(s, w).value, w).None?
  }

  predicate Leaves(mid: seq<Piece>) {
    |mid| >= 1 && mid[0].Ref? && (|mid| == 1 || mid[1..] == [Lit('\n')])
  }

  /**
   The first pass turned an embedded reference into a whole-string one: all that is left of the
   string is that reference, with at most a newline behind it.
   */
  predicate Collapses(s: string, w: Plan) {
    !Whole(s) && FirstPieces(Scan(s), w).Some? && Leaves(FirstPieces(Scan(s), w).value)
  }

  /** In a collapsed string the reference still gives text, and no newline is lost. */
  predicate CollapseHarmless(s: string, w: Plan)
    requires Collapses(s, w)
  {
    var mid := FirstPieces(Scan(s), w).value;
    var v := Resolve(mid[0].path, w.late);
    v.None? || (v.value.VText? && |mid| == 1)
  }

  lemma {:induction false} WholeIsCollapsed(ps: seq<Piece>)
    requires AllGenuine(ps) && NoStrayBraces(ps)
    ensures Whole(Print(ps)) <==> Leaves(ps)
    ensures Whole(Print(ps)) ==> MatchHead(Print(ps)).value.path == ps[0].path
  {
    ScanPrint(ps);
    var s := Print(ps);
    if ps != [] {
      assert ps == [ps[0]] + ps[1..];
      ConsScan(ps[0], ps[1..]);
      if ps[0].Ref? {
        assert s[..|ps[0].raw|] == ps[0].raw && s[|ps[0].raw|..] == Print(ps[1..]);
        MatchAgrees(ps[0].raw, s);
        TailText(ps[1..]);
      }
    }
  }

  lemma {:induction false} TailText(ps: seq<Piece>)
    requires AllGenuine(ps) && NoStrayBraces(ps)
    ensures Print(ps) == "" <==> ps == []
    ensures Print(ps) == "\n" <==> ps == [Lit('\n')]
  {
    ScanPrint(ps);
    ScanPrint([Lit('\n')]);
    ConsScan(Lit('\n'), []);
    assert [Lit('\n')] + [] == [Lit('\n')];
    assert "\n" + "" == "\n";
  }

  /** What the second pass makes of a collapsed string, and what it would have given as text. */
  lemma {:induction false} CollapsedOutcome(mid: seq<Piece>, w: Plan)
    requires ShowsText(w.show) && Leaves(mid) && HeadOf(mid[0].path) in Keys(w.late)
    ensures var v, text := Resolve(mid[0].path, w.late), SecondPieces(mid, w);
            && (v.None? <==> text.None?)
            && (v.Some? ==> (v.value == VText(Print(text.value)) <==> v.value.VText? && |mid| == 1))
  {
    var v := Resolve(mid[0].path, w.late);
    assert mid[1..] == [] || mid[1..] == [Lit('\n')];
    assert [Lit('\n')][1..] == [];
    assert SecondPieces([], w) == Some([]);
    assert SecondPieces([Lit('\n')], w) == Some([Lit('\n')]) by {
      assert [Lit('\n')] + [] == [Lit('\n')];
    }
    if v.Some? {
      var shown := w.show(v.value);
      var text := SecondPieces(mid, w).value;
      PrintLits(shown);
      if |mid| == 1 {
        assert text == Lits(shown);
      } else {
        assert text == Lits(shown + "\n");
        PrintLits(shown + "\n");
        assert |shown + "\n"| == |shown| + 1;
      }
      assert v.value.VText? ==> v.value == VText(shown);
    }
  }

  /** One rendering of a string fails exactly on an undefined or a stray reference. */
  lemma {:induction false} OnceFailsIff(s: string, w: Plan)
    requires Staged(w)
    ensures Once(VText(s), w).None? <==> AnyMissing(Scan(s), w) || AnyStray(Scan(s), w)
  {
    if Whole(s) {
      WholeScan(s);
      ResolveMerged(MatchHead(s).value.path, w);
      assert Scan(s)[0].path == MatchHead(s).value.path;
    } else {
      PiecesFail(Scan(s), w);
    }
  }

  /** The second pass over the pieces the first one left. */
  lemma {:induction false} SecondOfPrinted(mid: seq<Piece>, w: Plan)
    requires AllGenuine(mid) && NoStrayBraces(mid)
    ensures var text := Second(VText(Print(mid)), w);
            if Leaves(mid) then
              text == if HeadOf(mid[0].path) in Keys(w.late) then Resolve(mid[0].path, w.late) else Some(VText(Print(mid)))
            else
              text == match SecondPieces(mid, w) case None => None case Some(ps) => Some(VText(Print(ps)))
  {
    ScanPrint(mid);
    WholeIsCollapsed(mid);
  }

  lemma {:induction false} LeftMissing(mid: seq<Piece>, w: Plan)
    requires Leaves(mid)
    ensures SecondPieces(mid, w).None? <==> HeadOf(mid[0].path) in Keys(w.late) && Resolve(mid[0].path, w.late).None?
  {
    assert mid[1..] == [] || mid[1..] == [Lit('\n')];
    assert [Lit('\n')][1..] == [];
    assert SecondPieces([], w) == Some([]);
    assert SecondPieces([Lit('\n')], w).Some?;
  }

  lemma {:induction false} EmbeddedTwice(s: string, w: Plan)
    requires Staged(w) && CleanString(s, w) && !Whole(s)
    ensures Twice(VText(s), w).None? <==> AnyMissing(Scan(s), w)
    ensures !AnyMissing(Scan(s), w) && !AnyStray(Scan(s), w) ==>
              (Twice(VText(s), w) == Once(VText(s), w) <==> Collapses(s, w) ==> CollapseHarmless(s, w))
  {
    var ps := Scan(s);
    ScanGenuine(s);
    PiecesFail(ps, w);
    EarlyIsMissing(ps, w);
    if FirstPieces(ps, w).Some? {
      var mid := FirstPieces(ps, w).value;
      PiecesTwice(ps, w);
      RenderedClean(ps, w);
      TaskRenderIs(VText(Print(mid)), w.late, w.show);
      SecondOfPrinted(mid, w);
      if Leaves(mid) {
        LeftMissing(mid, w);
        if HeadOf(mid[0].path) in Keys(w.late) {
          CollapsedOutcome(mid, w);
        } else {
          StrayLeft(ps, w);
        }
      }
    }
  }

  lemma EarlyIsMissing(ps: seq<Piece>, w: Plan)
    ensures AnyMissingEarly(ps, w) ==> AnyMissing(ps, w)
  {
  }

  /** A reference the first pass leaves is deferred, and it was there before. */
  lemma {:induction false} LeftWasThere(ps: seq<Piece>, w: Plan, k: nat)
    requires FirstPieces(ps, w).Some? && k < |FirstPieces(ps, w).value| && FirstPieces(ps, w).value[k].Ref?
    ensures FirstPieces(ps, w).value[k] in ps && HeadOf(FirstPieces(ps, w).value[k].path) in w.deferred
    decreases |ps|
  {
    var rest := FirstPieces(ps[1..], w).value;
    if ps[0].Lit? || HeadOf(ps[0].path) in w.deferred {
      if k > 0 {
        LeftWasThere(ps[1..], w, k - 1);
      }
    } else {
      var shown := Lits(w.show(Resolve(ps[0].path, w.early).value));
      assert FirstPieces(ps, w).value == shown + rest;
      LeftWasThere(ps[1..], w, k - |shown|);
    }
  }

  lemma {:induction false} StrayLeft(ps: seq<Piece>, w: Plan)
    requires FirstPieces(ps, w).Some? && Leaves(FirstPieces(ps, w).value)
    requires HeadOf(FirstPieces(ps, w).value[0].path) !in Keys(w.late)
    ensures AnyStray(ps, w)
  {
    LeftWasThere(ps, w, 0);
    var i :| 0 <= i < |ps| && ps[i] == FirstPieces(ps, w).value[0];
  }

  lemma {:induction false} WholeTwice(s: string, w: Plan)
    requires Staged(w) && Whole(s)
    ensures Twice(VText(s), w).None? <==> AnyMissing(Scan(s), w) || Breaks(s, w)
    ensures !AnyMissing(Scan(s), w) && !AnyStray(Scan(s), w) ==> (Twice(VText(s), w) == Once(VText(s), w) <==> Settles(s, w))
  {
    var path := MatchHead(s).value.path;
    WholeScan(s);
    assert Scan(s)[0].path == path;
    ResolveMerged(path, w);
    if First(VText(s), w).Some? {
      TaskRenderIs(First(VText(s), w).value, w.late, w.show);
    }
  }

  /** The two passes agree with one on a string that neither fails on. */
  predicate Lasts(s: string, w: Plan) {
    && !AnyStray(Scan(s), w)
    && (Collapses(s, w) ==> CollapseHarmless(s, w))
    && Settles(s, w)
  }

  /** Two passes over a string fail exactly on an undefined reference or an inserted value that fails. */
  lemma {:induction false} TwiceFailsIff(s: string, w: Plan)
    requires Staged(w) && CleanString(s, w)
    ensures Twice(VText(s), w).None? <==> AnyMissing(Scan(s), w) || Breaks(s, w)
  {
    if Whole(s) {
      WholeTwice(s, w);
    } else {
      EmbeddedTwice(s, w);
    }
  }

  /**
   Two passes over a string equal one rendering exactly when a reference is undefined, so that both
   fail, or no reference is stray, the first pass does not collapse the string onto a reference
   that is not text or is followed by a newline, and a value that replaced the whole string stays.
   */
  lemma {:induction false} StringTwiceIff(s: string, w: Plan)
    requires Staged(w) && CleanString(s, w)
    ensures Twice(VText(s), w) == Once(VText(s), w) <==> AnyMissing(Scan(s), w) || Lasts(s, w)
  {
    OnceFailsIff(s, w);
    TwiceFailsIff(s, w);
    if Whole(s) {
      WholeTwice(s, w);
      WholeScan(s);
    } else {
      EmbeddedTwice(s, w);
    }
  }

  /** A value that names no active namespace always stays. */
  lemma {:induction false} InertSettles(s: string, w: Plan)
    requires Inserted(s, w).Some? && Namespaces(Inserted(s, w).value) !! Keys(w.late)
    ensures Settles(s, w)
  {
    RenderUntouched(Inserted(s, w).value, w.late, Only(Keys(w.late)), w.show);
  }

  /**
   A value that is itself a reference stays as text in one rendering. The second pass resolves it
   when its namespace is active, and then the two agree only if it resolves to that very text.
   */
  lemma {:induction false} ReferenceAsValue(s: string, text: string, w: Plan)
    requires Staged(w) && Inserted(s, w) == Some(VText(text)) && Whole(text)
    ensures Once(VText(s), w) == Some(VText(text))
    ensures var path := MatchHead(text).value.path;
            Twice(VText(s), w) == if HeadOf(path) in Keys(w.late) then Resolve(path, w.late) else Some(VText(text))
  {
    ResolveMerged(MatchHead(s).value.path, w);
    TaskRenderIs(VText(text), w.late, w.show);
  }

  const MAP_K := "{{ map.k }}"

  /** A task that is not mapped and names `map.k`: two passes leave the text, one rendering fails. */
  lemma {:induction false} StrayDiffers(w: Plan, results: Val)
    requires Staged(w) && w.deferred == {"xcom", "map"} && w.late == [Entry("xcom", results)]
    ensures Twice(VText(MAP_K), w) == Some(VText(MAP_K)) && Once(VText(MAP_K), w) == None
  {
    MapReference();
    WholeScan(MAP_K);
    var path := "map.k";
    assert Keys(w.late) == {"xcom"} by {
      assert w.late[0].key == "xcom";
    }
    TaskRenderIs(VText(MAP_K), w.late, w.show);
    ResolveMerged(path, w);
  }

  lemma MapReference()
    ensures Whole(MAP_K) && MatchHead(MAP_K).value.path == "map.k" && HeadOf("map.k") == "map"
  {
    assert RunEnd(MAP_K, 2, IsSpace) == 3;
    assert RunEnd(MAP_K, 4, IsPart) == 6;
    assert RunEnd(MAP_K, 8, IsPart) == 8;
    assert PathEnd(MAP_K, 3) == 8;
    assert RunEnd(MAP_K, 8, IsSpace) == 9;
    assert MAP_K[3..8] == "map.k";
    assert RunEnd("map.k", 1, NotDot) == 3;
    assert "map.k"[..3] == "map";
  }

  // ---------- whole configurations ----------

  /** The strings of a value. */
  function Texts(v: Val): seq<string>
    decreases v, 1
  {
    match v
    case VText(s) => [s]
    case VList(items) => ListTexts(items)
    case VDict(entries) => EntryTexts(entries)
    case _ => []
  }

  function ListTexts(items: seq<Val>): seq<string>
    decreases items, 0
  {
    if items == [] then [] else Texts(items[0]) + ListTexts(items[1..])
  }

  function EntryTexts(entries: seq<Entry>): seq<string>
    decreases entries, 0
  {
    if entries == [] then [] else Texts(entries[0].val) + EntryTexts(entries[1..])
  }

  predicate SomeOnceFails(texts: seq<string>, w: Plan) {
    exists s :: s in texts && Once(VText(s), w).None?
  }

  predicate SomeTwiceFails(texts: seq<string>, w: Plan) {
    exists s :: s in texts && Twice(VText(s), w).None?
  }

  predicate AllAlike(texts: seq<string>, w: Plan) {
    forall s :: s in texts ==> Twice(VText(s), w) == Once(VText(s), w)
  }

  function SecondList(mid: Option<seq<Val>>, w: Plan): Option<seq<Val>> {
    if mid.None? then None else RenderList(mid.value, w.late, Only(Keys(w.late)), w.show)
  }

  function SecondEntries(mid: Option<seq<Entry>>, w: Plan): Option<seq<Entry>> {
    if mid.None? then None else RenderEntries(mid.value, w.late, Only(Keys(w.late)), w.show)
  }

  /** A rendering of a whole value is the renderings of its strings. */
  ghost predicate ByText<T>(twice: Option<T>, once: Option<T>, texts: seq<string>, w: Plan) {
    && (once.None? <==> SomeOnceFails(texts, w))
    && (twice.None? <==> SomeTwiceFails(texts, w))
    && (once.Some? && twice.Some? ==> (twice == once <==> AllAlike(texts, w)))
  }

  lemma SplitTexts(a: seq<string>, b: seq<string>, w: Plan)
    ensures SomeOnceFails(a + b, w) <==> SomeOnceFails(a, w) || SomeOnceFails(b, w)
    ensures SomeTwiceFails(a + b, w) <==> SomeTwiceFails(a, w) || SomeTwiceFails(b, w)
    ensures AllAlike(a + b, w) <==> AllAlike(a, w) && AllAlike(b, w)
  {
    forall s ensures s in a + b <==> s in a || s in b {}
  }

  lemma {:induction false} ValueByText(v: Val, w: Plan)
    ensures ByText(Twice(v, w), Once(v, w), Texts(v), w)
    decreases v, 1
  {
    match v {
      case VText(s) =>
      case VList(items) =>
        ListByText(items, w);
        TwiceIs(v, w);
      case VDict(entries) =>
        EntriesByText(entries, w);
        TwiceIs(v, w);
      case _ =>
        TwiceIs(v, w);
    }
  }

  function Cons<T>(first: Option<T>, rest: Option<seq<T>>): Option<seq<T>> {
    if first.None? || rest.None? then None else Some([first.value] + rest.value)
  }

  function Keyed(key: string, v: Option<Val>): Option<Entry> {
    if v.None? then None else Some(Entry(key, v.value))
  }

  lemma {:induction false} ConsByText<T>(t: Option<T>, o: Option<T>, ts: Option<seq<T>>, os: Option<seq<T>>, a: seq<string>, b: seq<string>, w: Plan)
    requires ByText(t, o, a, w) && ByText(ts, os, b, w)
    ensures ByText(Cons(t, ts), Cons(o, os), a + b, w)
  {
    SplitTexts(a, b, w);
    var twice, once := Cons(t, ts), Cons(o, os);
    if twice.Some? && once.Some? {
      assert twice.value[0] == t.value && twice.value[1..] == ts.value;
      assert once.value[0] == o.value && once.value[1..] == os.value;
    }
  }

  lemma SecondCons(first: Option<Val>, rest: Option<seq<Val>>, w: Plan)
    ensures SecondList(Cons(first, rest), w) == Cons(if first.None? then None else Second(first.value, w), SecondList(rest, w))
  {
    if first.Some? && rest.Some? {
      assert ([first.value] + rest.value)[1..] == rest.value;
    }
  }

  lemma SecondEntryCons(key: string, first: Option<Val>, rest: Option<seq<Entry>>, w: Plan)
    ensures SecondEntries(Cons(Keyed(key, first), rest), w) ==
            Cons(Keyed(key, if first.None? then None else Second(first.value, w)), SecondEntries(rest, w))
  {
    if first.Some? && rest.Some? {
      assert ([Entry(key, first.value)] + rest.value)[1..] == rest.value;
    }
  }

  lemma TwiceIs(v: Val, w: Plan)
    ensures Twice(v, w) == if First(v, w).None? then None else Second(First(v, w).value, w)
  {
    if First(v, w).Some? {
      TaskRenderIs(First(v, w).value, w.late, w.show);
    }
  }

  lemma {:induction false} ListByText(items: seq<Val>, w: Plan)
    ensures ByText(SecondList(RenderList(items, w.early, AllBut(w.deferred), w.show), w),
                   RenderList(items, w.early + w.late, AllBut({}), w.show), ListTexts(items), w)
    decreases items, 0
  {
    if items != [] {
      ValueByText(items[0], w);
      ListByText(items[1..], w);
      TwiceIs(items[0], w);
      var rest := RenderList(items[1..], w.early, AllBut(w.deferred), w.show);
      ConsByText(Twice(items[0], w), Once(items[0], w), SecondList(rest, w),
                 RenderList(items[1..], w.early + w.late, AllBut({}), w.show), Texts(items[0]), ListTexts(items[1..]), w);
      SecondCons(First(items[0], w), rest, w);
    }
  }

  lemma {:induction false} EntriesByText(entries: seq<Entry>, w: Plan)
    ensures ByText(SecondEntries(RenderEntries(entries, w.early, AllBut(w.deferred), w.show), w),
                   RenderEntries(entries, w.early + w.late, AllBut({}), w.show), EntryTexts(entries), w)
    decreases entries, 0
  {
    if entries != [] {
      var e := entries[0];
      ValueByText(e.val, w);
      EntriesByText(entries[1..], w);
      TwiceIs(e.val, w);
      var rest := RenderEntries(entries[1..], w.early, AllBut(w.deferred), w.show);
      ConsByText(Keyed(e.key, Twice(e.val, w)), Keyed(e.key, Once(e.val, w)), SecondEntries(rest, w),
                 RenderEntries(entries[1..], w.early + w.late, AllBut({}), w.show), Texts(e.val), EntryTexts(entries[1..]), w);
      SecondEntryCons(e.key, First(e.val, w), rest, w);
    }
  }

  /** Some string keeps one rendering from succeeding. */
  ghost predicate OnceStops(v: Val, w: Plan) {
    exists s :: s in Texts(v) && (AnyMissing(Scan(s), w) || AnyStray(Scan(s), w))
  }

  ghost predicate TwiceStops(v: Val, w: Plan) {
    exists s :: s in Texts(v) && (AnyMissing(Scan(s), w) || Breaks(s, w))
  }

  /**
   Rendering a configuration at load time and again per task equals rendering it once with
   everything exactly when every string lasts through both passes, or both ways fail: one rendering
   on an undefined or stray reference, two on an undefined one or inside an inserted value.
   */
  lemma {:induction false} TwoStagesIff(v: Val, w: Plan)
    requires Staged(w) && forall s :: s in Texts(v) ==> CleanString(s, w)
    ensures Twice(v, w) == Once(v, w) <==>
            (forall s :: s in Texts(v) ==> Lasts(s, w)) || (OnceStops(v, w) && TwiceStops(v, w))
  {
    ValueByText(v, w);
    forall s | s in Texts(v)
      ensures Once(VText(s), w).None? <==> AnyMissing(Scan(s), w) || AnyStray(Scan(s), w)
      ensures Twice(VText(s), w).None? <==> AnyMissing(Scan(s), w) || Breaks(s, w)
      ensures Twice(VText(s), w) == Once(VText(s), w) <==> AnyMissing(Scan(s), w) || Lasts(s, w)
    {
      OnceFailsIff(s, w);
      TwiceFailsIff(s, w);
      StringTwiceIff(s, w);
    }
  }
}
