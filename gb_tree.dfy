/**
 * The section tree of the older form builder in gb-code.tsx. Sections nest
 * through an optional `subsections` list and hold an optional `fields`
 * list: a missing key matters there, because some handlers create the list
 * when it is absent and others throw. This module defines the data model,
 * the pre-order listing of a forest, and the search the drop handler runs
 * several times: visit the sections depth first in pre-order, stop at the
 * first one the probe accepts, and splice a replacement into that
 * section's list. That search is given as a specification function,
 * `EditList`, and as the loop the source runs, `EditFirstLoop`.
 */
module GbTree {

  import opened Common

  /** A field; the keys a loaded or hand-written field may lack are Option values. */
  datatype GbField = GbField(
    id: string,
    name: string,
    description: Option<string>,
    dataType: string,
    length: Option<string>,
    required: Option<bool>,
    repeated: Option<bool>,
    defaultValue: Option<string>,
    dropdownOptions: Option<seq<string>>)

  /**
   * A section (the key `type` is `kind`). A `Bare` section has no
   * `subsections` key, a `Parent` has one, possibly holding an empty list.
   */
  datatype GbSection =
    | Bare(id: string, name: string, description: Option<string>, kind: string,
           disabled: Option<bool>, fields: Option<seq<GbField>>)
    | Parent(id: string, name: string, description: Option<string>, kind: string,
             disabled: Option<bool>, fields: Option<seq<GbField>>, subsections: seq<GbSection>)

  /** The child sections, an absent list read as empty. */
  function Subs(s: GbSection): seq<GbSection> {
    if s.Parent? then s.subsections else []
  }

  /** The section with its `subsections` key set to c. */
  function WithSubs(s: GbSection, c: seq<GbSection>): GbSection {
    Parent(s.id, s.name, s.description, s.kind, s.disabled, s.fields, c)
  }

  /** The section's own keys, without subsections: what a pre-order listing records of a node. */
  function Head(s: GbSection): GbSection {
    Bare(s.id, s.name, s.description, s.kind, s.disabled, s.fields)
  }

  /** `g` of every section of the forest in pre-order, concatenated; `g` sees only a node's own keys. */
  function Collect<T>(l: seq<GbSection>, g: GbSection -> seq<T>): seq<T> {
    if l == [] then []
    else g(Head(l[0])) + (if l[0].Parent? then Collect(l[0].subsections, g) else []) + Collect(l[1..], g)
  }

  function IdOf(s: GbSection): seq<string> {
    [s.id]
  }

  /** The ids of every section of the forest, in pre-order. */
  function GbIds(l: seq<GbSection>): seq<string> {
    Collect(l, IdOf)
  }

  function FieldId(f: GbField): string {
    f.id
  }

  function FieldIdsOf(s: GbSection): seq<string> {
    MapSeq(s.fields.GetOr([]), FieldId)
  }

  /** The ids of every field of the forest, section by section in pre-order. */
  function FieldIds(l: seq<GbSection>): seq<string> {
    Collect(l, FieldIdsOf)
  }

  lemma {:induction false} CollectConcat<T>(a: seq<GbSection>, b: seq<GbSection>, g: GbSection -> seq<T>)
    ensures Collect(a + b, g) == Collect(a, g) + Collect(b, g)
  {
    if a == [] {
      assert a + b == b;
    } else {
      assert (a + b)[0] == a[0] && (a + b)[1..] == a[1..] + b;
      CollectConcat(a[1..], b, g);
    }
  }

  /** The listing of a single tree: its root's part, then its subsections'. */
  lemma {:induction false} CollectOne<T>(s: GbSection, g: GbSection -> seq<T>)
    ensures Collect([s], g) == g(Head(s)) + Collect(Subs(s), g)
  {
    assert [s][1..] == [];
    if s.Bare? {
      assert Collect(Subs(s), g) == [];
    }
  }

  // ------------------------------------------------------------ contexts

  /**
   * One level of the way down to a list of sections: the siblings left of
   * the parent, the parent, the siblings right of it.
   */
  datatype Frame = Frame(left: seq<GbSection>, parent: GbSection, right: seq<GbSection>)

  /**
   * The forest obtained by putting L back into a context, outermost frame
   * first. Each frame's parent gets L (or the forest built below it) as its
   * subsections.
   */
  function Plug(path: seq<Frame>, L: seq<GbSection>): seq<GbSection>
    decreases |path|
  {
    if path == [] then L
    else path[0].left + [WithSubs(path[0].parent, Plug(path[1..], L))] + path[0].right
  }

  /** `g` of the context's nodes that come before the plugged list in pre-order. */
  function CollectBefore<T>(path: seq<Frame>, g: GbSection -> seq<T>): seq<T>
    decreases |path|
  {
    if path == [] then [] else Collect(path[0].left, g) + g(Head(path[0].parent)) + CollectBefore(path[1..], g)
  }

  /** `g` of the context's nodes that come after the plugged list in pre-order. */
  function CollectAfter<T>(path: seq<Frame>, g: GbSection -> seq<T>): seq<T>
    decreases |path|
  {
    if path == [] then [] else CollectAfter(path[1..], g) + Collect(path[0].right, g)
  }

  /** A context contributes the same nodes before and after whatever list is plugged in. */
  lemma {:induction false} CollectPlug<T>(path: seq<Frame>, L: seq<GbSection>, g: GbSection -> seq<T>)
    ensures Collect(Plug(path, L), g) == CollectBefore(path, g) + Collect(L, g) + CollectAfter(path, g)
    decreases |path|
  {
    if path != [] {
      var f := path[0];
      var p := WithSubs(f.parent, Plug(path[1..], L));
      CollectPlug(path[1..], L, g);
      CollectConcat(f.left + [p], f.right, g);
      CollectConcat(f.left, [p], g);
      CollectOne(p, g);
      assert Head(p) == Head(f.parent);
      Regroup(Collect(f.left, g), g(Head(f.parent)), CollectBefore(path[1..], g), Collect(L, g),
              CollectAfter(path[1..], g), Collect(f.right, g));
    }
  }

  lemma {:induction false} Regroup<T>(a: seq<T>, b: seq<T>, c: seq<T>, d: seq<T>, e: seq<T>, f: seq<T>)
    ensures a + (b + (c + d + e)) + f == (a + b + c) + d + (e + f)
  {
  }

  // ------------------------------------------------------------ the first-hit search

  /** What a search step decides about one section: go on, stop here, or throw. */
  datatype Probe = Skip | Hit | Throw

  /** The outcome of a search: no section accepted, the new forest and the accepted section, or a thrown error. */
  datatype Search = Missed | Crashed | Found(list: seq<GbSection>, hit: GbSection)

  /**
   * Visit the sections depth first in pre-order. At the first one the probe
   * does not skip, either throw or replace that section, in its own list,
   * by `repl` of it. The lists that held it are rebuilt on the way back up.
   */
  function EditList(l: seq<GbSection>, probe: GbSection -> Probe, repl: GbSection -> seq<GbSection>): Search {
    if l == [] then Missed
    else if probe(l[0]) == Throw then Crashed
    else if probe(l[0]) == Hit then Found(repl(l[0]) + l[1..], l[0])
    else
      var inner := if l[0].Parent? then EditList(l[0].subsections, probe, repl) else Missed;
      if inner.Found? then Found([WithSubs(l[0], inner.list)] + l[1..], inner.hit)
      else if inner.Crashed? then Crashed
      else Prefixed([l[0]], EditList(l[1..], probe, repl))
  }

  /** A search result seen from a list that has p in front of the searched part. */
  function Prefixed(p: seq<GbSection>, r: Search): Search {
    if r.Found? then Found(p + r.list, r.hit) else r
  }

  /** Every section of the forest, at any depth, is skipped by the probe. */
  predicate SkipsAll(l: seq<GbSection>, probe: GbSection -> Probe) {
    l == [] || (probe(l[0]) == Skip && (l[0].Parent? ==> SkipsAll(l[0].subsections, probe)) && SkipsAll(l[1..], probe))
  }

  /** Every section of a context that pre-order visits before the plugged list is skipped by the probe. */
  predicate SkipsPath(path: seq<Frame>, probe: GbSection -> Probe) {
    forall k :: 0 <= k < |path| ==> SkipsAll(path[k].left, probe) && probe(path[k].parent) == Skip
  }

  /**
   * The loops `removeSectionFromList`, `addSectionToTarget`,
   * `removeFieldFromSection` and both `addFieldToSection`s: a `for` loop over
   * one list that probes each section and either splices at index i and
   * returns, or recurses into the section's `subsections` and returns if the
   * recursion succeeded. The splice happens on a deep clone of the state,
   * so editing in place and rebuilding the values agree.
   */
  method EditFirstLoop(l: seq<GbSection>, probe: GbSection -> Probe, repl: GbSection -> seq<GbSection>) returns (r: Search)
    ensures r == EditList(l, probe, repl)
    decreases l
  {
    var i := 0;
    while i < |l|
      invariant 0 <= i <= |l|
      invariant EditList(l, probe, repl) == Prefixed(l[..i], EditList(l[i..], probe, repl))
    {
      assert l[i..][0] == l[i] && l[i..][1..] == l[i + 1..];
      var p := probe(l[i]);
      if p == Throw {
        return Crashed;
      }
      if p == Hit {
        assert l[..i] + (repl(l[i]) + l[i + 1..]) == l[..i] + repl(l[i]) + l[i + 1..];
        return Found(l[..i] + repl(l[i]) + l[i + 1..], l[i]);
      }
      if l[i].Parent? {
        var sub := EditFirstLoop(l[i].subsections, probe, repl);
        if sub.Found? {
          var s := l[i].(subsections := sub.list);
          assert s == WithSubs(l[i], sub.list);
          assert l[..i] + ([s] + l[i + 1..]) == l[..i] + [s] + l[i + 1..];
          return Found(l[..i] + [s] + l[i + 1..], sub.hit);
        }
        if sub.Crashed? {
          return Crashed;
        }
      }
      assert l[..i] + [l[i]] == l[..i + 1];
      PrefixedTwice(l[..i], [l[i]], EditList(l[i + 1..], probe, repl));
      i := i + 1;
    }
    assert l[i..] == [];
    r := Missed;
  }

  lemma {:induction false} PrefixedTwice(p: seq<GbSection>, q: seq<GbSection>, r: Search)
    ensures Prefixed(p, Prefixed(q, r)) == Prefixed(p + q, r)
  {
    if r.Found? {
      assert p + (q + r.list) == (p + q) + r.list;
    }
  }

  /** The search misses exactly when the probe skips every section. */
  lemma {:induction false} EditListMissed(l: seq<GbSection>, probe: GbSection -> Probe, repl: GbSection -> seq<GbSection>)
    ensures EditList(l, probe, repl).Missed? <==> SkipsAll(l, probe)
  {
    if l != [] && probe(l[0]) == Skip {
      if l[0].Parent? {
        EditListMissed(l[0].subsections, probe, repl);
      }
      EditListMissed(l[1..], probe, repl);
    }
  }

  /**
   * Where a successful search edits: the forest is a context around a list
   * pre + [x] + post, the probe accepts x and skips every section visited
   * before it (the context's earlier nodes and pre), and the new forest
   * is the same context around pre + repl(x) + post.
   */
  lemma {:induction false} EditListFound(l: seq<GbSection>, probe: GbSection -> Probe, repl: GbSection -> seq<GbSection>)
      returns (path: seq<Frame>, pre: seq<GbSection>, x: GbSection, post: seq<GbSection>)
    requires EditList(l, probe, repl).Found?
    ensures l == Plug(path, pre + [x] + post)
    ensures EditList(l, probe, repl) == Found(Plug(path, pre + repl(x) + post), x)
    ensures probe(x) == Hit && SkipsAll(pre, probe) && SkipsPath(path, probe)
    decreases l, 1
  {
    if probe(l[0]) == Hit {
      path, pre, x, post := [], [], l[0], l[1..];
      assert l == [l[0]] + l[1..];
    } else if l[0].Parent? && EditList(l[0].subsections, probe, repl).Found? {
      path, pre, x, post := FoundBelow(l, probe, repl);
    } else {
      path, pre, x, post := FoundLater(l, probe, repl);
    }
  }

  /** The hit lies inside the first section's subsections: one more frame on the way down. */
  lemma {:induction false} FoundBelow(l: seq<GbSection>, probe: GbSection -> Probe, repl: GbSection -> seq<GbSection>)
      returns (path: seq<Frame>, pre: seq<GbSection>, x: GbSection, post: seq<GbSection>)
    requires l != [] && probe(l[0]) == Skip && l[0].Parent? && EditList(l[0].subsections, probe, repl).Found?
    ensures l == Plug(path, pre + [x] + post)
    ensures EditList(l, probe, repl) == Found(Plug(path, pre + repl(x) + post), x)
    ensures probe(x) == Hit && SkipsAll(pre, probe) && SkipsPath(path, probe)
    decreases l, 0
  {
    var h := l[0];
    var p', pre', x', post' := EditListFound(h.subsections, probe, repl);
    path, pre, x, post := [Frame([], h, l[1..])] + p', pre', x', post';
    assert path[0] == Frame([], h, l[1..]) && path[1..] == p';
    assert WithSubs(h, Plug(p', pre' + [x'] + post')) == h;
    assert l == [h] + l[1..];
    forall k | 0 <= k < |path|
      ensures SkipsAll(path[k].left, probe) && probe(path[k].parent) == Skip
    {
      if k > 0 {
        assert path[k] == p'[k - 1];
      }
    }
  }

  /** The first tree is skipped entirely and the hit lies among the later siblings. */
  lemma {:induction false} FoundLater(l: seq<GbSection>, probe: GbSection -> Probe, repl: GbSection -> seq<GbSection>)
      returns (path: seq<Frame>, pre: seq<GbSection>, x: GbSection, post: seq<GbSection>)
    requires l != [] && probe(l[0]) == Skip && !(l[0].Parent? && EditList(l[0].subsections, probe, repl).Found?)
    requires EditList(l, probe, repl).Found?
    ensures l == Plug(path, pre + [x] + post)
    ensures EditList(l, probe, repl) == Found(Plug(path, pre + repl(x) + post), x)
    ensures probe(x) == Hit && SkipsAll(pre, probe) && SkipsPath(path, probe)
    decreases l, 0
  {
    var h := l[0];
    assert h.Parent? ==> SkipsAll(h.subsections, probe) by {
      if h.Parent? {
        EditListMissed(h.subsections, probe, repl);
      }
    }
    assert EditList(l, probe, repl) == Prefixed([h], EditList(l[1..], probe, repl));
    var p', pre', x', post' := EditListFound(l[1..], probe, repl);
    assert l == [h] + l[1..];
    path, pre, x, post := ConsContext(h, p', pre', x', post', probe, repl);
  }

  /** Putting a skipped sibling h in front of a located hit. */
  lemma {:induction false} ConsContext(h: GbSection, p': seq<Frame>, pre': seq<GbSection>, x': GbSection, post': seq<GbSection>,
                    probe: GbSection -> Probe, repl: GbSection -> seq<GbSection>)
      returns (path: seq<Frame>, pre: seq<GbSection>, x: GbSection, post: seq<GbSection>)
    requires probe(h) == Skip && (h.Parent? ==> SkipsAll(h.subsections, probe))
    requires SkipsAll(pre', probe) && SkipsPath(p', probe)
    ensures x == x' && SkipsAll(pre, probe) && SkipsPath(path, probe)
    ensures [h] + Plug(p', pre' + [x'] + post') == Plug(path, pre + [x] + post)
    ensures [h] + Plug(p', pre' + repl(x') + post') == Plug(path, pre + repl(x) + post)
  {
    var m1, m2 := [x'] + post', repl(x') + post';
    assert pre' + [x'] + post' == pre' + m1 && pre' + repl(x') + post' == pre' + m2;
    path, pre, x, post := ConsPath(h, p'), ConsPre(h, p', pre'), x', post';
    ConsPlug(h, p', pre', m1);
    ConsPlug(h, p', pre', m2);
    assert pre + [x] + post == pre + m1 && pre + repl(x) + post == pre + m2;
    ConsSkips(h, p', pre', probe);
  }

  /** The context of a hit once a sibling h is put in front of the outermost list. */
  function ConsPath(h: GbSection, path: seq<Frame>): seq<Frame> {
    if path == [] then [] else [path[0].(left := [h] + path[0].left)] + path[1..]
  }

  function ConsPre(h: GbSection, path: seq<Frame>, pre: seq<GbSection>): seq<GbSection> {
    if path == [] then [h] + pre else pre
  }

  lemma {:induction false} ConsPlug(h: GbSection, path: seq<Frame>, pre: seq<GbSection>, m: seq<GbSection>)
    ensures [h] + Plug(path, pre + m) == Plug(ConsPath(h, path), ConsPre(h, path, pre) + m)
  {
    if path == [] {
      assert [h] + (pre + m) == [h] + pre + m;
    } else {
      var c := ConsPath(h, path);
      assert c[0] == path[0].(left := [h] + path[0].left) && c[1..] == path[1..];
    }
  }

  lemma {:induction false} ConsSkips(h: GbSection, path: seq<Frame>, pre: seq<GbSection>, probe: GbSection -> Probe)
    requires probe(h) == Skip && (h.Parent? ==> SkipsAll(h.subsections, probe))
    requires SkipsAll(pre, probe) && SkipsPath(path, probe)
    ensures SkipsAll(ConsPre(h, path, pre), probe) && SkipsPath(ConsPath(h, path), probe)
  {
    if path == [] {
      assert ([h] + pre)[0] == h && ([h] + pre)[1..] == pre;
    } else {
      var c := ConsPath(h, path);
      var left := [h] + path[0].left;
      assert left[0] == h && left[1..] == path[0].left;
      forall k | 0 <= k < |c|
        ensures SkipsAll(c[k].left, probe) && probe(c[k].parent) == Skip
      {
        if k > 0 {
          assert c[k] == path[k];
        }
      }
    }
  }

  /** A probe that never throws gives a search that never crashes. */
  lemma {:induction false} NeverThrown(l: seq<GbSection>, probe: GbSection -> Probe, repl: GbSection -> seq<GbSection>)
    requires forall s :: probe(s) != Throw
    ensures !EditList(l, probe, repl).Crashed?
  {
    if l != [] && probe(l[0]) == Skip {
      if l[0].Parent? {
        NeverThrown(l[0].subsections, probe, repl);
      }
      NeverThrown(l[1..], probe, repl);
    }
  }

  /** A probe that accepts the sections with a given id. */
  function IdProbe(id: string): GbSection -> Probe {
    (s: GbSection) => if s.id == id then Hit else Skip
  }

  /** The id probe skips a forest exactly when no section of it, at any depth, has the id. */
  lemma {:induction false} SkipsAllIds(l: seq<GbSection>, id: string)
    ensures SkipsAll(l, IdProbe(id)) <==> id !in GbIds(l)
  {
    if l != [] {
      if l[0].Parent? {
        SkipsAllIds(l[0].subsections, id);
      }
      SkipsAllIds(l[1..], id);
    }
  }

  /** Likewise for the nodes a context visits first. */
  lemma {:induction false} SkipsPathIds(path: seq<Frame>, id: string)
    ensures SkipsPath(path, IdProbe(id)) <==> id !in CollectBefore(path, IdOf)
    decreases |path|
  {
    if path != [] {
      SkipsAllIds(path[0].left, id);
      SkipsPathIds(path[1..], id);
      assert SkipsPath(path, IdProbe(id)) <==>
             SkipsAll(path[0].left, IdProbe(id)) && IdProbe(id)(path[0].parent) == Skip && SkipsPath(path[1..], IdProbe(id)) by {
        if SkipsAll(path[0].left, IdProbe(id)) && IdProbe(id)(path[0].parent) == Skip && SkipsPath(path[1..], IdProbe(id)) {
          forall k | 0 <= k < |path| ensures SkipsAll(path[k].left, IdProbe(id)) && IdProbe(id)(path[k].parent) == Skip {
            if k > 0 {
              assert path[k] == path[1..][k - 1];
            }
          }
        }
        if SkipsPath(path, IdProbe(id)) {
          forall k | 0 <= k < |path[1..]| ensures SkipsAll(path[1..][k].left, IdProbe(id)) && IdProbe(id)(path[1..][k].parent) == Skip {
            assert path[1..][k] == path[k + 1];
          }
        }
      }
    }
  }

  /**
   * A search by id finds the first section with that id in pre-order: it
   * succeeds exactly when the id occurs, and nothing visited before the hit
   * has the id.
   */
  lemma {:induction false} FirstById(l: seq<GbSection>, id: string, repl: GbSection -> seq<GbSection>)
      returns (path: seq<Frame>, pre: seq<GbSection>, x: GbSection, post: seq<GbSection>)
      requires id in GbIds(l)
    ensures EditList(l, IdProbe(id), repl).Found?
    ensures l == Plug(path, pre + [x] + post) && x.id == id
    ensures EditList(l, IdProbe(id), repl) == Found(Plug(path, pre + repl(x) + post), x)
    ensures id !in CollectBefore(path, IdOf) + GbIds(pre)
  {
    EditListMissed(l, IdProbe(id), repl);
    SkipsAllIds(l, id);
    NeverThrown(l, IdProbe(id), repl);
    path, pre, x, post := EditListFound(l, IdProbe(id), repl);
    SkipsAllIds(pre, id);
    SkipsPathIds(path, id);
  }

  /** A search by id for an id that does not occur changes nothing. */
  lemma {:induction false} MissingId(l: seq<GbSection>, id: string, repl: GbSection -> seq<GbSection>)
    requires id !in GbIds(l)
    ensures EditList(l, IdProbe(id), repl) == Missed
  {
    EditListMissed(l, IdProbe(id), repl);
    SkipsAllIds(l, id);
  }

  // ------------------------------------------------------------ probes on a node's own keys

  function NodeOf(s: GbSection): seq<GbSection> {
    [Head(s)]
  }

  /** Every section of the forest with its own keys only, in pre-order. */
  function Nodes(l: seq<GbSection>): seq<GbSection> {
    Collect(l, NodeOf)
  }

  /** The probe looks at a section's own keys only, not at its subsections. */
  ghost predicate HeadOnly(probe: GbSection -> Probe) {
    forall s :: probe(Head(s)) == probe(s)
  }

  /** Such a probe skips a forest exactly when it skips every node of the pre-order listing. */
  lemma {:induction false} SkipsAllNodes(l: seq<GbSection>, probe: GbSection -> Probe)
    requires HeadOnly(probe)
    ensures SkipsAll(l, probe) <==> forall n :: n in Nodes(l) ==> probe(n) == Skip
  {
    if l != [] {
      if l[0].Parent? {
        SkipsAllNodes(l[0].subsections, probe);
      }
      SkipsAllNodes(l[1..], probe);
      assert Nodes(l) == [Head(l[0])] + (if l[0].Parent? then Nodes(l[0].subsections) else []) + Nodes(l[1..]);
      assert probe(Head(l[0])) == probe(l[0]);
    }
  }

  /** Likewise for the nodes a context visits first. */
  lemma {:induction false} SkipsPathNodes(path: seq<Frame>, probe: GbSection -> Probe)
    requires HeadOnly(probe)
    ensures SkipsPath(path, probe) <==> forall n :: n in CollectBefore(path, NodeOf) ==> probe(n) == Skip
    decreases |path|
  {
    if path != [] {
      SkipsAllNodes(path[0].left, probe);
      SkipsPathNodes(path[1..], probe);
      assert CollectBefore(path, NodeOf) == Nodes(path[0].left) + [Head(path[0].parent)] + CollectBefore(path[1..], NodeOf);
      assert probe(Head(path[0].parent)) == probe(path[0].parent);
      assert SkipsPath(path, probe) <==>
             SkipsAll(path[0].left, probe) && probe(path[0].parent) == Skip && SkipsPath(path[1..], probe) by {
        if SkipsAll(path[0].left, probe) && probe(path[0].parent) == Skip && SkipsPath(path[1..], probe) {
          forall k | 0 <= k < |path| ensures SkipsAll(path[k].left, probe) && probe(path[k].parent) == Skip {
            if k > 0 {
              assert path[k] == path[1..][k - 1];
            }
          }
        }
        if SkipsPath(path, probe) {
          forall k | 0 <= k < |path[1..]| ensures SkipsAll(path[1..][k].left, probe) && probe(path[1..][k].parent) == Skip {
            assert path[1..][k] == path[k + 1];
          }
        }
      }
    }
  }

  /** A search whose probe throws at no node of the forest does not crash. */
  lemma {:induction false} NoThrowNodes(l: seq<GbSection>, probe: GbSection -> Probe, repl: GbSection -> seq<GbSection>)
    requires HeadOnly(probe)
    requires forall n :: n in Nodes(l) ==> probe(n) != Throw
    ensures !EditList(l, probe, repl).Crashed?
  {
    if l != [] {
      assert Nodes(l) == [Head(l[0])] + (if l[0].Parent? then Nodes(l[0].subsections) else []) + Nodes(l[1..]);
      assert probe(Head(l[0])) == probe(l[0]);
      if probe(l[0]) == Skip {
        if l[0].Parent? {
          NoThrowNodes(l[0].subsections, probe, repl);
        }
        NoThrowNodes(l[1..], probe, repl);
      }
    }
  }

  /**
   * The search for a probe that throws nowhere and accepts some node finds
   * the first node it accepts in pre-order.
   */
  lemma {:induction false} FirstHit(l: seq<GbSection>, probe: GbSection -> Probe, repl: GbSection -> seq<GbSection>)
      returns (path: seq<Frame>, pre: seq<GbSection>, x: GbSection, post: seq<GbSection>)
    requires HeadOnly(probe)
    requires forall n :: n in Nodes(l) ==> probe(n) != Throw
    requires exists n :: n in Nodes(l) && probe(n) == Hit
    ensures l == Plug(path, pre + [x] + post) && probe(x) == Hit
    ensures EditList(l, probe, repl) == Found(Plug(path, pre + repl(x) + post), x)
    ensures forall n :: n in CollectBefore(path, NodeOf) + Nodes(pre) ==> probe(n) == Skip
  {
    EditListMissed(l, probe, repl);
    SkipsAllNodes(l, probe);
    NoThrowNodes(l, probe, repl);
    path, pre, x, post := EditListFound(l, probe, repl);
    SkipsAllNodes(pre, probe);
    SkipsPathNodes(path, probe);
  }
}
