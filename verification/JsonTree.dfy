/** Paths into a JSON document (get_path and set_path of sre-learning-lab/bank.py) and many
    assignments at once. */
module JsonTree {
  import opened Base

  datatype Json =
    | Null
    | Bool(b: bool)
    | Num(n: int)
    | Str(s: string)
    | Arr(elements: seq<Json>)
    | Obj(members: map<string, Json>)

  /** A path component: a key of an object or a position in an array. */
  datatype Part = Key(k: string) | Index(i: nat)

  type Path = seq<Part>

  predicate HasChild(d: Json, part: Part) {
    match part
    case Key(k) => d.Obj? && k in d.members
    case Index(i) => d.Arr? && i < |d.elements|
  }

  function Child(d: Json, part: Part): (c: Json)
    requires HasChild(d, part)
    ensures c < d
  {
    match part
    case Key(k) => d.members[k]
    case Index(i) => d.elements[i]
  }

  /** parent[part] = value: an object gains a missing key, an array does not grow, and anything else
      cannot be assigned into. */
  function Assign(d: Json, part: Part, value: Json): Option<Json> {
    match part
    case Key(k) => if d.Obj? then Some(Obj(d.members[k := value])) else None
    case Index(i) => if d.Arr? && i < |d.elements| then Some(Arr(d.elements[i := value])) else None
  }

  function GetPath(d: Json, path: Path): Option<Json> {
    if path == [] then Some(d)
    else if HasChild(d, path[0]) then GetPath(Child(d, path[0]), path[1..])
    else None
  }

  lemma BelowKey(d: Json, key: string, rest: Path)
    ensures GetPath(d, [Key(key)] + rest) ==
      if d.Obj? && key in d.members then GetPath(d.members[key], rest) else None
  {
    assert ([Key(key)] + rest)[1..] == rest;
  }

  lemma BelowIndex(d: Json, i: nat, rest: Path)
    ensures GetPath(d, [Index(i)] + rest) ==
      if d.Arr? && i < |d.elements| then GetPath(d.elements[i], rest) else None
  {
    assert ([Index(i)] + rest)[1..] == rest;
  }

  /** The document after an assignment at a path; the root cannot be replaced. */
  function SetPath(d: Json, path: Path, value: Json): Option<Json> {
    if path == [] then None
    else if |path| == 1 then Assign(d, path[0], value)
    else if HasChild(d, path[0]) then
      var c := SetPath(Child(d, path[0]), path[1..], value);
      if c.Some? then Assign(d, path[0], c.value) else None
    else None
  }

  // ---- Reading after one assignment ----

  predicate IsPrefix(p: Path, q: Path) {
    |p| <= |q| && q[..|p|] == p
  }

  predicate Incomparable(p: Path, q: Path) {
    !IsPrefix(p, q) && !IsPrefix(q, p)
  }

  lemma IncomparableTails(p: Path, q: Path)
    requires p != [] && q != [] && p[0] == q[0]
    ensures Incomparable(p, q) <==> Incomparable(p[1..], q[1..])
  {
    PrefixTails(p, q);
    PrefixTails(q, p);
  }

  lemma PrefixTails(p: Path, q: Path)
    requires p != [] && q != [] && p[0] == q[0]
    ensures IsPrefix(p, q) <==> IsPrefix(p[1..], q[1..])
  {
    assert p == [p[0]] + p[1..] && q == [q[0]] + q[1..];
    if IsPrefix(p, q) {
      assert q[1..][..|p| - 1] == q[..|p|][1..];
    }
    if IsPrefix(p[1..], q[1..]) {
      assert q[..|p|] == [q[0]] + q[1..][..|p| - 1];
    }
  }

  /** An object takes any key, an array one of its positions. */
  predicate CanHold(parent: Json, part: Part) {
    match part
    case Key(_) => parent.Obj?
    case Index(i) => parent.Arr? && i < |parent.elements|
  }

  /** An assignment succeeds exactly when the path but for its last part resolves to something that can hold the last
      part, whether that key is there already or not. It is read back, and is not seen from any incomparable path. */
  lemma {:induction false} SetThenGet(d: Json, p: Path, value: Json, q: Path)
    requires p != []
    ensures
      var parent := GetPath(d, p[..|p| - 1]);
      SetPath(d, p, value).Some? <==> parent.Some? && CanHold(parent.value, p[|p| - 1])
    ensures SetPath(d, p, value).Some? ==>
      && GetPath(SetPath(d, p, value).value, p) == Some(value)
      && (Incomparable(p, q) ==> GetPath(SetPath(d, p, value).value, q) == GetPath(d, q))
    decreases |p|
  {
    if |p| > 1 {
      assert p[..|p| - 1][1..] == p[1..][..|p| - 2];
      if HasChild(d, p[0]) {
        SetThenGet(Child(d, p[0]), p[1..], value, if q != [] && q[0] == p[0] then q[1..] else p[1..]);
      }
    }
    if q != [] && q[0] == p[0] {
      if |p| == 1 {
        assert q[..1] == p;
      } else {
        IncomparableTails(p, q);
      }
    }
  }

  // ---- Many assignments ----

  datatype Write = Write(path: Path, value: string)

  /** The assignments of strings one after another; a failing one stops the rest. */
  function Apply(d: Json, writes: seq<Write>): Option<Json> {
    if writes == [] then Some(d)
    else
      var before := Apply(d, writes[..|writes| - 1]);
      var w := writes[|writes| - 1];
      if before.Some? then SetPath(before.value, w.path, Str(w.value)) else None
  }

  /** The value of the last write at exactly this path. */
  function LastWrite(writes: seq<Write>, path: Path): Option<string> {
    if writes == [] then None
    else if writes[|writes| - 1].path == path then Some(writes[|writes| - 1].value)
    else LastWrite(writes[..|writes| - 1], path)
  }

  /** The writes below one child, seen from that child. */
  function Below(writes: seq<Write>, part: Part): seq<Write> {
    if writes == [] then []
    else
      var w := writes[|writes| - 1];
      Below(writes[..|writes| - 1], part)
      + if w.path != [] && w.path[0] == part then [Write(w.path[1..], w.value)] else []
  }

  /** All writes at once: every place reads the last value written exactly there, and what is not
      written stays. */
  function Overlay(d: Json, writes: seq<Write>): Json {
    if LastWrite(writes, []).Some? then Str(LastWrite(writes, []).value)
    else
      match d
      case Arr(elements) =>
        Arr(seq(|elements|, i requires 0 <= i < |elements| => Overlay(elements[i], Below(writes, Index(i)))))
      case Obj(members) => Obj(map k | k in members :: Overlay(members[k], Below(writes, Key(k))))
      case _ => d
  }

  // ---- Writing one by one is writing all at once ----

  lemma {:induction false} LastWriteBelow(writes: seq<Write>, part: Part, rest: Path)
    ensures LastWrite(Below(writes, part), rest) == LastWrite(writes, [part] + rest)
  {
    if writes != [] {
      var most, w := writes[..|writes| - 1], writes[|writes| - 1];
      LastWriteBelow(most, part, rest);
      if w.path != [] && w.path[0] == part {
        assert Below(writes, part) == Below(most, part) + [Write(w.path[1..], w.value)];
        assert w.path == [part] + w.path[1..];
      } else {
        assert Below(writes, part) == Below(most, part);
      }
    }
  }

  lemma {:induction false} BelowCameFrom(writes: seq<Write>, part: Part, w: Write)
    requires w in Below(writes, part)
    ensures Write([part] + w.path, w.value) in writes
  {
    var most, last := writes[..|writes| - 1], writes[|writes| - 1];
    if last.path != [] && last.path[0] == part && w == Write(last.path[1..], last.value) {
      assert last.path == [part] + w.path;
    } else {
      BelowCameFrom(most, part, w);
    }
  }

  lemma {:induction false} LastWriteIn(writes: seq<Write>, path: Path)
    ensures LastWrite(writes, path).Some? ==> Write(path, LastWrite(writes, path).value) in writes
    ensures LastWrite(writes, path).Some? <==> exists w :: w in writes && w.path == path
  {
    if writes != [] {
      LastWriteIn(writes[..|writes| - 1], path);
    }
  }

  lemma {:induction false} OverlayNothing(d: Json)
    ensures Overlay(d, []) == d
  {
    match d
    case Arr(elements) =>
      forall i | 0 <= i < |elements| ensures Overlay(elements[i], Below([], Index(i))) == elements[i] {
        OverlayNothing(elements[i]);
      }
    case Obj(members) =>
      forall k | k in members ensures Overlay(members[k], Below([], Key(k))) == members[k] {
        OverlayNothing(members[k]);
      }
    case _ =>
  }

  /** Below an unwritten root, an overlay has the document's children, each overlaid. */
  lemma OverlayChildren(d: Json, writes: seq<Write>, part: Part)
    requires LastWrite(writes, []).None?
    ensures HasChild(Overlay(d, writes), part) <==> HasChild(d, part)
    ensures HasChild(d, part) ==> Child(Overlay(d, writes), part) == Overlay(Child(d, part), Below(writes, part))
  {
  }

  /** Two containers with the same children are the same. */
  lemma SameChildren(a: Json, b: Json)
    requires (a.Obj? && b.Obj?) || (a.Arr? && b.Arr?)
    requires forall part :: HasChild(a, part) <==> HasChild(b, part)
    requires forall part :: HasChild(a, part) ==> Child(a, part) == Child(b, part)
    ensures a == b
  {
    if a.Obj? {
      forall k ensures k in a.members <==> k in b.members {
        assert HasChild(a, Key(k)) <==> HasChild(b, Key(k));
      }
      forall k | k in a.members ensures a.members[k] == b.members[k] {
        assert HasChild(a, Key(k)) && Child(a, Key(k)) == Child(b, Key(k));
      }
      assert a.members == b.members;
    } else {
      SameElements(a, b);
    }
  }

  lemma SameElements(a: Json, b: Json)
    requires a.Arr? && b.Arr?
    requires forall part :: HasChild(a, part) <==> HasChild(b, part)
    requires forall part :: HasChild(a, part) ==> Child(a, part) == Child(b, part)
    ensures a == b
  {
    assert HasChild(a, Index(|b.elements|)) <==> HasChild(b, Index(|b.elements|));
    assert HasChild(a, Index(|a.elements|)) <==> HasChild(b, Index(|a.elements|));
    forall i | 0 <= i < |a.elements| && i < |b.elements| ensures a.elements[i] == b.elements[i] {
      assert HasChild(a, Index(i)) && Child(a, Index(i)) == Child(b, Index(i));
    }
  }

  lemma AssignChildren(d: Json, part: Part, value: Json, other: Part)
    requires HasChild(d, part)
    ensures Assign(d, part, value).Some?
    ensures
      var a := Assign(d, part, value).value;
      && a.Obj? == d.Obj? && a.Arr? == d.Arr?
      && (HasChild(a, other) <==> HasChild(d, other))
      && (HasChild(d, other) ==> Child(a, other) == if other == part then value else Child(d, other))
  {
  }

  predicate Compatible(writes: seq<Write>, path: Path) {
    forall w :: w in writes ==> w.path == path || Incomparable(w.path, path)
  }

  lemma CompatibleBelow(writes: seq<Write>, path: Path)
    requires path != [] && Compatible(writes, path)
    ensures Compatible(Below(writes, path[0]), path[1..])
    ensures LastWrite(writes, []).None?
  {
    LastWriteIn(writes, []);
    assert IsPrefix([], path);
    forall w | w in Below(writes, path[0])
      ensures w.path == path[1..] || Incomparable(w.path, path[1..])
    {
      BelowCameFrom(writes, path[0], w);
      var full := [path[0]] + w.path;
      assert full[1..] == w.path;
      if full != path {
        IncomparableTails(full, path);
      }
    }
  }

  lemma BelowSnoc(writes: seq<Write>, w: Write, part: Part)
    requires w.path != []
    ensures Below(writes + [w], part) ==
      if w.path[0] == part then Below(writes, part) + [Write(w.path[1..], w.value)] else Below(writes, part)
    ensures LastWrite(writes + [w], []) == LastWrite(writes, [])
  {
    assert (writes + [w])[..|writes|] == writes;
  }

  /** One more assignment on top of an overlay is an overlay with one more write. */
  lemma {:induction false} OverlaySnoc(d: Json, writes: seq<Write>, w: Write)
    requires w.path != [] && GetPath(d, w.path).Some? && Compatible(writes, w.path)
    ensures SetPath(Overlay(d, writes), w.path, Str(w.value)) == Some(Overlay(d, writes + [w]))
    decreases |w.path|
  {
    var h, rest := w.path[0], w.path[1..];
    CompatibleBelow(writes, w.path);
    BelowSnoc(writes, w, h);
    OverlayChildren(d, writes, h);
    var c, before := Child(d, h), Overlay(d, writes);
    var below := Below(writes, h);
    if rest != [] {
      OverlaySnoc(c, below, Write(rest, w.value));
    } else {
      assert LastWrite(below + [Write(rest, w.value)], []) == Some(w.value);
    }
    var value := Overlay(c, below + [Write(rest, w.value)]);
    assert SetPath(before, w.path, Str(w.value)) == Assign(before, h, value);
    AssignedOverlay(d, writes, w, value);
  }

  lemma AssignedOverlay(d: Json, writes: seq<Write>, w: Write, value: Json)
    requires w.path != [] && HasChild(d, w.path[0]) && LastWrite(writes, []).None?
    requires value == Overlay(Child(d, w.path[0]), Below(writes, w.path[0]) + [Write(w.path[1..], w.value)])
    ensures Assign(Overlay(d, writes), w.path[0], value) == Some(Overlay(d, writes + [w]))
  {
    var h := w.path[0];
    var before, after := Overlay(d, writes), Overlay(d, writes + [w]);
    BelowSnoc(writes, w, h);
    OverlayChildren(d, writes, h);
    AssignChildren(before, h, value, h);
    var result := Assign(before, h, value).value;
    forall part
      ensures HasChild(result, part) <==> HasChild(after, part)
      ensures HasChild(result, part) ==> Child(result, part) == Child(after, part)
    {
      BelowSnoc(writes, w, part);
      OverlayChildren(d, writes, part);
      OverlayChildren(d, writes + [w], part);
      AssignChildren(before, h, value, part);
    }
    SameChildren(result, after);
  }

  /** Every write is at a path that resolves, and no two written paths are one inside the other. */
  predicate Independent(d: Json, writes: seq<Write>) {
    && (forall w :: w in writes ==> w.path != [] && GetPath(d, w.path).Some?)
    && (forall w :: w in writes ==> Compatible(writes, w.path))
  }

  /** Assigning one by one, in place, is the overlay. */
  lemma {:induction false} ApplyIsOverlay(d: Json, writes: seq<Write>)
    requires Independent(d, writes)
    ensures Apply(d, writes) == Some(Overlay(d, writes))
  {
    if writes == [] {
      OverlayNothing(d);
    } else {
      var most, w := writes[..|writes| - 1], writes[|writes| - 1];
      ApplyIsOverlay(d, most);
      OverlaySnoc(d, most, w);
      assert most + [w] == writes;
    }
  }

  // ---- What an overlay depends on ----

  /** Only the last write at each path matters, so neither do overwritten writes nor the order of
      writes at different paths. */
  lemma {:induction false} OverlayDependsOnLastWrites(d: Json, a: seq<Write>, b: seq<Write>)
    requires forall p :: LastWrite(a, p) == LastWrite(b, p)
    ensures Overlay(d, a) == Overlay(d, b)
  {
    if LastWrite(a, []).None? && (d.Arr? || d.Obj?) {
      forall part
        ensures HasChild(Overlay(d, a), part) <==> HasChild(Overlay(d, b), part)
        ensures HasChild(Overlay(d, a), part) ==> Child(Overlay(d, a), part) == Child(Overlay(d, b), part)
      {
        OverlayChildren(d, a, part);
        OverlayChildren(d, b, part);
        if HasChild(d, part) {
          forall p ensures LastWrite(Below(a, part), p) == LastWrite(Below(b, part), p) {
            LastWriteBelow(a, part, p);
            LastWriteBelow(b, part, p);
          }
          OverlayDependsOnLastWrites(Child(d, part), Below(a, part), Below(b, part));
        }
      }
      SameChildren(Overlay(d, a), Overlay(d, b));
    }
  }

  /** Writes that are all overwritten leave no trace. */
  lemma {:induction false} OverlayOverwrites(d: Json, a: seq<Write>, b: seq<Write>)
    requires forall p :: LastWrite(a, p).Some? ==> LastWrite(b, p).Some?
    ensures Overlay(Overlay(d, a), b) == Overlay(d, b)
  {
    if LastWrite(b, []).None? && (d.Arr? || d.Obj?) {
      var once := Overlay(d, a);
      forall part
        ensures HasChild(Overlay(once, b), part) <==> HasChild(Overlay(d, b), part)
        ensures HasChild(Overlay(once, b), part) ==> Child(Overlay(once, b), part) == Child(Overlay(d, b), part)
      {
        OverlayChildren(d, a, part);
        OverlayChildren(d, b, part);
        OverlayChildren(once, b, part);
        if HasChild(d, part) {
          forall p ensures LastWrite(Below(a, part), p).Some? ==> LastWrite(Below(b, part), p).Some? {
            LastWriteBelow(a, part, p);
            LastWriteBelow(b, part, p);
          }
          OverlayOverwrites(Child(d, part), Below(a, part), Below(b, part));
        }
      }
      SameChildren(Overlay(once, b), Overlay(d, b));
    }
  }

  // ---- Reading an overlay ----

  predicate NoneAbove(writes: seq<Write>, q: Path) {
    forall w :: w in writes ==> !IsPrefix(w.path, q)
  }

  lemma NoneAboveBelow(writes: seq<Write>, q: Path)
    requires q != [] && (forall w :: w in writes ==> w.path == q || !IsPrefix(w.path, q))
    ensures LastWrite(writes, []).None?
    ensures forall w :: w in Below(writes, q[0]) ==> w.path == q[1..] || !IsPrefix(w.path, q[1..])
    ensures NoneAbove(writes, q) ==> NoneAbove(Below(writes, q[0]), q[1..])
  {
    LastWriteIn(writes, []);
    forall w | w in Below(writes, q[0])
      ensures w.path == q[1..] || !IsPrefix(w.path, q[1..])
      ensures NoneAbove(writes, q) ==> !IsPrefix(w.path, q[1..])
    {
      BelowCameFrom(writes, q[0], w);
      var full := [q[0]] + w.path;
      assert full[1..] == w.path;
      PrefixTails(full, q);
    }
  }

  /** A written path reads its last write. */
  lemma {:induction false} ReadWritten(d: Json, writes: seq<Write>, q: Path)
    requires LastWrite(writes, q).Some? && GetPath(d, q).Some?
    requires forall w :: w in writes ==> w.path == q || !IsPrefix(w.path, q)
    ensures GetPath(Overlay(d, writes), q) == Some(Str(LastWrite(writes, q).value))
    decreases |q|
  {
    if q != [] {
      NoneAboveBelow(writes, q);
      OverlayChildren(d, writes, q[0]);
      LastWriteBelow(writes, q[0], q[1..]);
      assert q == [q[0]] + q[1..];
      ReadWritten(Child(d, q[0]), Below(writes, q[0]), q[1..]);
    }
  }

  /** A path with nothing written at or above it still leads to the same kind of node, with the same
      keys. */
  lemma {:induction false} ReadShape(d: Json, writes: seq<Write>, q: Path)
    requires NoneAbove(writes, q)
    ensures GetPath(Overlay(d, writes), q).Some? <==> GetPath(d, q).Some?
    ensures GetPath(d, q).Some? && GetPath(d, q).value.Obj? ==>
      && GetPath(Overlay(d, writes), q).value.Obj?
      && GetPath(Overlay(d, writes), q).value.members.Keys == GetPath(d, q).value.members.Keys
    decreases |q|
  {
    if q == [] {
      LastWriteIn(writes, []);
    } else {
      NoneAboveBelow(writes, q);
      OverlayChildren(d, writes, q[0]);
      if HasChild(d, q[0]) {
        ReadShape(Child(d, q[0]), Below(writes, q[0]), q[1..]);
      }
    }
  }

  /** A path incomparable with everything written reads as before. */
  lemma {:induction false} ReadElsewhere(d: Json, writes: seq<Write>, q: Path)
    requires forall w :: w in writes ==> Incomparable(w.path, q)
    ensures GetPath(Overlay(d, writes), q) == GetPath(d, q)
    decreases |q|
  {
    if q == [] {
      if writes != [] {
        assert IsPrefix(q, writes[0].path);
      }
      OverlayNothing(d);
    } else {
      NoneAboveBelow(writes, q);
      OverlayChildren(d, writes, q[0]);
      if HasChild(d, q[0]) {
        forall w | w in Below(writes, q[0]) ensures Incomparable(w.path, q[1..]) {
          BelowCameFrom(writes, q[0], w);
          var full := [q[0]] + w.path;
          assert full[1..] == w.path;
          IncomparableTails(full, q);
        }
        ReadElsewhere(Child(d, q[0]), Below(writes, q[0]), q[1..]);
      }
    }
  }
}
