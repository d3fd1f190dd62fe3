/**
 The `map` half of the template lint against the per-task rendering: which warnings mean that the
 token reaches the connector as it is, and which that the task fails.
 */
module MapLint {
  import opened Prelude
  import opened Templating
  import opened Staging

  datatype MapWarning = WithoutExpand(key: string) | UnknownKey(key: string)

  /** The segment behind the first dot, or nothing. */
  function KeyOf(path: string): string {
    if |Segments(path)| > 1 then Segments(path)[1] else ""
  }

  /** The warning a reference deserves. */
  predicate Deserves(expand: set<string>, path: string, w: MapWarning) {
    && HeadOf(path) == "map"
    && if expand == {} then w == WithoutExpand(KeyOf(path)) else KeyOf(path) !in expand && w == UnknownKey(KeyOf(path))
  }

  predicate Warned(expand: set<string>, path: string) {
    HeadOf(path) == "map" && KeyOf(path) !in expand
  }

  /** The `map` branch of `_lint_deferred_template_refs`, over the sorted paths of one task. */
  method LintMapRefs(paths: seq<string>, expand: set<string>) returns (warnings: seq<MapWarning>)
    ensures forall w :: w in warnings <==> exists i :: 0 <= i < |paths| && Deserves(expand, paths[i], w)
    ensures warnings == [] <==> forall i :: 0 <= i < |paths| ==> !Warned(expand, paths[i])
  {
    warnings := [];
    for i := 0 to |paths|
      invariant forall w :: w in warnings <==> exists h :: 0 <= h < i && Deserves(expand, paths[h], w)
      invariant warnings == [] <==> forall h :: 0 <= h < i ==> !Warned(expand, paths[h])
    {
      if HeadOf(paths[i]) == "map" {
        if expand == {} {
          warnings := warnings + [WithoutExpand(KeyOf(paths[i]))];
        } else if KeyOf(paths[i]) !in expand {
          warnings := warnings + [UnknownKey(KeyOf(paths[i]))];
        }
      }
    }
  }

  /** What a task is rendered with: the results so far and, for an instance, its map values. */
  function TaskContext(results: Val, values: Option<seq<Entry>>): Context {
    [Entry("xcom", results)] + if values.Some? then [Entry("map", VDict(values.value))] else []
  }

  /** The instances of a task that declares these expand keys. */
  ghost predicate InstanceOf(expand: set<string>, values: Option<seq<Entry>>) {
    (values.Some? <==> expand != {}) && (values.Some? ==> Keys(values.value) == expand)
  }

  lemma ContextKeys(results: Val, values: Option<seq<Entry>>)
    ensures Keys(TaskContext(results, values)) == if values.Some? then {"xcom", "map"} else {"xcom"}
  {
    var ctx := TaskContext(results, values);
    assert ctx[0].key == "xcom";
    assert values.Some? ==> ctx[1].key == "map";
  }

  lemma {:induction false} LookupKey(entries: seq<Entry>, key: string)
    ensures Lookup(entries, key).Some? <==> key in Keys(entries)
    decreases |entries|
  {
    if entries != [] {
      var rest := entries[1..];
      LookupKey(rest, key);
      forall i | 0 <= i < |rest| ensures rest[i] == entries[i + 1] {}
      assert key in Keys(entries) <==> entries[0].key == key || key in Keys(rest) by {
        if key in Keys(entries) {
          var i :| 0 <= i < |entries| && entries[i].key == key;
          assert i > 0 ==> rest[i - 1].key == key;
        }
        if key in Keys(rest) {
          var i :| 0 <= i < |rest| && rest[i].key == key;
          assert entries[i + 1].key == key;
        }
        assert entries[0].key in Keys(entries);
      }
    }
  }

  /** Behind `map`, a path goes on from the map value of its key. */
  lemma {:induction false} MapResolves(path: string, results: Val, values: seq<Entry>)
    requires HeadOf(path) == "map" && |Segments(path)| > 1
    ensures Resolve(path, TaskContext(results, Some(values))) ==
            match Lookup(values, KeyOf(path))
            case None => None
            case Some(v) => Walk(v, Segments(path)[2..])
  {
    var segments, ctx := Segments(path), TaskContext(results, Some(values));
    assert ctx[1..] == [Entry("map", VDict(values))];
    assert Lookup(ctx, "map") == Some(VDict(values)) by {
      assert ctx[0].key == "xcom" && ctx[1..][0].key == "map";
    }
    assert segments[0] == "map" && segments[1..][0] == KeyOf(path) && segments[1..][1..] == segments[2..];
    assert Walk(VDict(ctx), segments) == Walk(VDict(values), segments[1..]);
  }

  /**
   A text that is one `map.<key>` reference draws a warning exactly when no instance gets a value
   for it: without `expand` the text stays as it is, with an unknown key the rendering fails, and
   otherwise it is the map value of the key.
   */
  lemma {:induction false} WarnedIffUnresolved(s: string, path: string, expand: set<string>, results: Val, values: Option<seq<Entry>>, show: Val -> string)
    requires Whole(s) && MatchHead(s).value.path == path && HeadOf(path) == "map" && |Segments(path)| == 2
    requires InstanceOf(expand, values)
    ensures var ctx := TaskContext(results, values);
            if expand == {} then Warned(expand, path) && TaskRender(VText(s), ctx, show) == Some(VText(s))
            else
              && TaskRender(VText(s), ctx, show) == Lookup(values.value, KeyOf(path))
              && (Warned(expand, path) <==> TaskRender(VText(s), ctx, show).None?)
  {
    var ctx := TaskContext(results, values);
    ContextKeys(results, values);
    TaskRenderIs(VText(s), ctx, show);
    if expand != {} {
      MapResolves(path, results, values.value);
      LookupKey(values.value, KeyOf(path));
      assert Segments(path)[2..] == [];
    }
  }

  /** Deeper paths: a warning still means that no instance resolves it. */
  lemma {:induction false} WarnedNeverResolves(path: string, expand: set<string>, results: Val, values: seq<Entry>)
    requires HeadOf(path) == "map" && |Segments(path)| > 1 && expand != {} && InstanceOf(expand, Some(values))
    requires Warned(expand, path)
    ensures Resolve(path, TaskContext(results, Some(values))).None?
  {
    MapResolves(path, results, values);
    LookupKey(values, KeyOf(path));
  }

  lemma MapAlone()
    ensures Segments("map") == ["map"] && HeadOf("map") == "map"
  {
    assert RunEnd("map", 3, NotDot) == 3;
    assert RunEnd("map", 1, NotDot) == 3;
    assert "map"[..3] == "map";
  }

  /** The bare reference `map` is warned about although every instance resolves it. */
  lemma {:induction false} BareMapWarned(expand: set<string>, results: Val, values: seq<Entry>)
    requires expand != {} && "" !in expand && InstanceOf(expand, Some(values))
    ensures Warned(expand, "map") && Resolve("map", TaskContext(results, Some(values))) == Some(VDict(values))
  {
    MapAlone();
    var ctx := TaskContext(results, Some(values));
    assert ctx[1..] == [Entry("map", VDict(values))];
    assert Lookup(ctx, "map") == Some(VDict(values)) by {
      assert ctx[0].key == "xcom" && ctx[1..][0].key == "map";
    }
    assert ["map"][1..] == [];
    assert Walk(VDict(ctx), ["map"]) == Walk(VDict(values), []);
  }
}
