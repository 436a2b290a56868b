/** The log handler: handlers derived from one another by adding attributes or opening
    groups, and the flattening of attributes into the tail of a line (uncoloured). */
module PrettyLog {
  import opened Options
  import Quoting
  import opened Text

  /** A value that prints without quotes whatever its type: numbers, booleans, durations, times. */
  type Bare = s: string | s != "" && NoneIn(s, Quoting.SPECIAL) witness "0"

  datatype Value = Textual(text: string) | Plain(shown: Bare) | Group(attrs: seq<Attr>)

  datatype Attr = Attr(key: string, value: Value)

  // ---- flattening -------------------------------------------------------

  function Inside(groups: seq<string>, name: string): seq<string> {
    if name == "" then groups else groups + [name]
  }

  /** The pairs an attribute contributes within a list of groups. */
  function Flat(a: Attr, groups: seq<string>): seq<Quoting.Pair>
    decreases a
  {
    match a.value
    case Group(attrs) => FlatAll(attrs, Inside(groups, a.key))
    case Textual(text) => if a.key == "" then [] else [Quoting.Pair(Join(groups + [a.key], "."), text)]
    case Plain(shown) => if a.key == "" then [] else [Quoting.Pair(Join(groups + [a.key], "."), shown)]
  }

  function FlatAll(attrs: seq<Attr>, groups: seq<string>): seq<Quoting.Pair>
    decreases attrs
  {
    if attrs == [] then [] else Flat(attrs[0], groups) + FlatAll(attrs[1..], groups)
  }

  lemma {:induction false} FlatAllAppend(a: seq<Attr>, b: seq<Attr>, groups: seq<string>)
    ensures FlatAll(a + b, groups) == FlatAll(a, groups) + FlatAll(b, groups)
  {
    if a == [] {
      assert a + b == b;
    } else {
      assert (a + b)[1..] == a[1..] + b;
      FlatAllAppend(a[1..], b, groups);
      Associate(Flat(a[0], groups), FlatAll(a[1..], groups), FlatAll(b, groups));
    }
  }

  // ---- derived handlers -------------------------------------------------

  datatype Chunk = Chunk(groups: seq<string>, attrs: seq<Attr>)

  /** What a handler has collected. */
  datatype View = View(groups: seq<string>, chunks: seq<Chunk>)

  datatype Op = AddAttrs(attrs: seq<Attr>) | OpenGroup(name: string)

  function After(v: View, op: Op): View {
    match op
    case AddAttrs(attrs) => if attrs == [] then v else v.(chunks := v.chunks + [Chunk(v.groups, attrs)])
    case OpenGroup(name) => if name == "" then v else v.(groups := v.groups + [name])
  }

  function Derived(v: View, ops: seq<Op>): View
    decreases |ops|
  {
    if ops == [] then v else Derived(After(v, ops[0]), ops[1..])
  }

  function ChunkPairs(chunks: seq<Chunk>): seq<Quoting.Pair> {
    if chunks == [] then []
    else
      var n := |chunks| - 1;
      ChunkPairs(chunks[..n]) + FlatAll(chunks[n].attrs, chunks[n].groups)
  }

  /** The pairs a handler prints for a record. */
  function Pairs(v: View, record: seq<Attr>): seq<Quoting.Pair> {
    ChunkPairs(v.chunks) + FlatAll(record, v.groups)
  }

  /** The record that says with nested groups what a derivation says with handlers. */
  function Nest(ops: seq<Op>, record: seq<Attr>): seq<Attr>
    decreases |ops|
  {
    if ops == [] then record
    else
      match ops[0]
      case AddAttrs(attrs) => attrs + Nest(ops[1..], record)
      case OpenGroup(name) => [Attr(name, Group(Nest(ops[1..], record)))]
  }

  lemma FlatGroup(name: string, attrs: seq<Attr>, groups: seq<string>)
    ensures FlatAll([Attr(name, Group(attrs))], groups) == FlatAll(attrs, Inside(groups, name))
  {
    var one := [Attr(name, Group(attrs))];
    assert FlatAll(one, groups) == Flat(one[0], groups) + FlatAll(one[1..], groups);
  }

  lemma ChunkPairsOne(chunks: seq<Chunk>, c: Chunk)
    ensures ChunkPairs(chunks + [c]) == ChunkPairs(chunks) + FlatAll(c.attrs, c.groups)
  {
    assert (chunks + [c])[..|chunks|] == chunks;
  }

  /** Grouping by derived handlers flattens to the same pairs as nested group attributes,
      for any chain of derivations. */
  lemma {:induction false} DerivingIsNesting(v: View, ops: seq<Op>, record: seq<Attr>)
    ensures Pairs(Derived(v, ops), record) == Pairs(v, Nest(ops, record))
    decreases |ops|
  {
    if ops == [] {
    } else {
      var rest := Nest(ops[1..], record);
      DerivingIsNesting(After(v, ops[0]), ops[1..], record);
      match ops[0]
      case OpenGroup(name) =>
        FlatGroup(name, rest, v.groups);
      case AddAttrs(attrs) =>
        FlatAllAppend(attrs, rest, v.groups);
        if attrs != [] {
          ChunkPairsOne(v.chunks, Chunk(v.groups, attrs));
          Associate(ChunkPairs(v.chunks), FlatAll(attrs, v.groups), FlatAll(rest, v.groups));
        }
    }
  }

  /** The tail a handler derived from a fresh one prints reads back as the flattened
      nested record, exactly when none of its full keys contains an equals sign. */
  /** The key of an attribute in groups is the dotted path of their names; a group without a
      name adds nothing, an attribute without a key is dropped. */
  lemma DottedKey(outer: string, inner: string, key: string, text: string, shown: Bare)
    requires outer != "" && inner != "" && key != ""
    ensures Flat(Attr(key, Textual(text)), []) == [Quoting.Pair(key, text)]
    ensures Flat(Attr(outer, Group([Attr(inner, Group([Attr(key, Textual(text))]))])), []) ==
            [Quoting.Pair(outer + "." + (inner + "." + key), text)]
    ensures Flat(Attr("", Group([Attr(inner, Group([Attr(key, Textual(text))]))])), []) ==
            [Quoting.Pair(inner + "." + key, text)]
    ensures Flat(Attr("", Textual(text)), [outer]) == [] && Flat(Attr("", Plain(shown)), [outer]) == []
    ensures Flat(Attr(key, Plain(shown)), [outer, inner]) == [Quoting.Pair(outer + "." + (inner + "." + key), shown)]
  {
    var leaf := Attr(key, Textual(text));
    FlatOne(leaf, [outer, inner]);
    FlatOne(leaf, [inner]);
    var mid := Attr(inner, Group([leaf]));
    FlatOne(mid, [outer]);
    FlatOne(mid, []);
    assert [] + [outer] == [outer] && [outer] + [inner] == [outer, inner] && [] + [inner] == [inner] && [] + [key] == [key];
    assert [outer, inner] + [key] == [outer, inner, key] && [inner] + [key] == [inner, key];
    JoinThree(outer, inner, key);
  }

  lemma FlatOne(a: Attr, groups: seq<string>)
    ensures FlatAll([a], groups) == Flat(a, groups)
  {
    assert [a][1..] == [];
  }

  lemma JoinThree(a: string, b: string, c: string)
    ensures Join([c], ".") == c && Join([b, c], ".") == b + "." + c
    ensures Join([a, b, c], ".") == a + "." + (b + "." + c)
  {
    assert [b, c][1..] == [c] && [a, b, c][1..] == [b, c];
  }

  lemma DerivedTailReadsBackIff(printable: char -> bool, ops: seq<Op>, record: seq<Attr>)
    requires FlatAll(Nest(ops, record), []) != []
    ensures Quoting.ReadTail(Quoting.PrintTail(printable, Pairs(Derived(View([], []), ops), record)))
            == Some(FlatAll(Nest(ops, record), []))
            <==> Quoting.CleanKeys(FlatAll(Nest(ops, record), []))
  {
    DerivingIsNesting(View([], []), ops, record);
    var ps := FlatAll(Nest(ops, record), []);
    assert ChunkPairs([]) + ps == ps;
    Quoting.TailReadsBackIff(printable, ps);
  }

  // ---- the printer as written -------------------------------------------

  class Parts {
    var items: seq<string>

    constructor ()
      ensures items == []
    {
      items := [];
    }
  }

  lemma {:induction false} PartsAppend(printable: char -> bool, a: seq<Quoting.Pair>, b: seq<Quoting.Pair>)
    ensures Quoting.Parts(printable, a + b) == Quoting.Parts(printable, a) + Quoting.Parts(printable, b)
  {
    if a == [] {
      assert a + b == b;
    } else {
      assert (a + b)[1..] == a[1..] + b;
      PartsAppend(printable, a[1..], b);
    }
  }

  function Shown(printable: char -> bool, value: Value): string
    requires !value.Group?
  {
    match value
    case Textual(text) => Quoting.QuoteIfNeeded(printable, text)
    case Plain(shown) => shown
  }

  /** Appends one part for every pair the attribute flattens to. */
  method AppendAttr(printable: char -> bool, parts: Parts, attr: Attr, groups: seq<string>)
    modifies parts
    ensures parts.items == old(parts.items) + Quoting.Parts(printable, Flat(attr, groups))
    decreases attr
  {
    if attr.value.Group? {
      var subGroup := groups;
      if attr.key != "" {
        subGroup := subGroup + [attr.key];
      }
      AppendAll(printable, parts, attr.value.attrs, subGroup);
      return;
    }
    if attr.key == "" {
      return;
    }
    var key := attr.key;
    if |groups| > 0 {
      key := Join(groups + [attr.key], ".");
    } else {
      assert groups + [attr.key] == [attr.key];
    }
    parts.items := parts.items + [key + "=" + Shown(printable, attr.value)];
  }

  method AppendAll(printable: char -> bool, parts: Parts, attrs: seq<Attr>, groups: seq<string>)
    modifies parts
    ensures parts.items == old(parts.items) + Quoting.Parts(printable, FlatAll(attrs, groups))
    decreases attrs
  {
    for i := 0 to |attrs|
      invariant parts.items == old(parts.items) + Quoting.Parts(printable, FlatAll(attrs[..i], groups))
    {
      ghost var before := parts.items;
      AppendAttr(printable, parts, attrs[i], groups);
      ghost var done, one := FlatAll(attrs[..i], groups), Flat(attrs[i], groups);
      assert attrs[..i + 1] == attrs[..i] + [attrs[i]];
      FlatAllAppend(attrs[..i], [attrs[i]], groups);
      assert FlatAll([attrs[i]], groups) == one;
      PartsAppend(printable, done, one);
      Associate(old(parts.items), Quoting.Parts(printable, done), Quoting.Parts(printable, one));
    }
    assert attrs[..|attrs|] == attrs;
  }

  function SourcePart(source: Option<string>): seq<string> {
    if source.None? then [] else ["source=" + source.value]
  }

  /** The pairs of a line with its source position. */
  function WithSource(ps: seq<Quoting.Pair>, source: Option<string>): seq<Quoting.Pair> {
    if source.None? then ps else ps + [Quoting.Pair("source", source.value)]
  }

  /** A bare source position prints like any other pair, so the tail with it reads back too. */
  lemma SourceReadsBackIff(printable: char -> bool, ps: seq<Quoting.Pair>, source: Option<string>)
    requires WithSource(ps, source) != []
    requires source.Some? ==> source.value != "" && NoneIn(source.value, Quoting.SPECIAL)
    ensures Quoting.ReadTail(Join(Quoting.Parts(printable, ps) + SourcePart(source), " ")) == Some(WithSource(ps, source))
            <==> Quoting.CleanKeys(WithSource(ps, source))
  {
    if source.Some? {
      var last := Quoting.Pair("source", source.value);
      PartsAppend(printable, ps, [last]);
      assert Quoting.PrintPair(printable, last) == "source=" + source.value;
      assert Quoting.Parts(printable, [last]) == SourcePart(source);
    } else {
      assert Quoting.Parts(printable, ps) + [] == Quoting.Parts(printable, ps);
    }
    Quoting.TailReadsBackIff(printable, WithSource(ps, source));
  }

  // ---- handlers as objects ----------------------------------------------

  /** A chunk as stored: two slices. */
  datatype Slices = Slices(groups: array<string>, attrs: array<Attr>)

  method Copied<T>(a: array<T>) returns (b: array<T>)
    ensures fresh(b) && b[..] == a[..]
  {
    b := new T[a.Length](i requires 0 <= i < a.Length reads a => a[i]);
  }

  method CopiedWith<T>(a: array<T>, last: T) returns (b: array<T>)
    ensures fresh(b) && b[..] == a[..] + [last]
  {
    b := new T[a.Length + 1](i requires 0 <= i < a.Length + 1 reads a => if i < a.Length then a[i] else last);
  }

  class Handler {
    const groups: array<string>
    const chunks: array<Slices>
    ghost const Repr: set<object>

    ghost predicate Valid()
      reads this, Repr
    {
      && groups in Repr && chunks in Repr
      && forall k :: 0 <= k < chunks.Length ==> chunks[k].groups in Repr && chunks[k].attrs in Repr
    }

    ghost function ChunkViews(n: nat): (views: seq<Chunk>)
      requires Valid() && n <= chunks.Length
      reads this, Repr
    {
      if n == 0 then [] else ChunkViews(n - 1) + [Chunk(chunks[n - 1].groups[..], chunks[n - 1].attrs[..])]
    }

    ghost function Collected(): View
      requires Valid()
      reads this, Repr
    {
      View(groups[..], ChunkViews(chunks.Length))
    }

    constructor ()
      ensures Valid() && fresh(Repr) && Collected() == View([], [])
    {
      groups := new string[0];
      chunks := new Slices[0];
      Repr := {groups, chunks};
    }

    constructor Of(groups: array<string>, chunks: array<Slices>, ghost repr: set<object>)
      ensures this.groups == groups && this.chunks == chunks && Repr == repr
    {
      this.groups, this.chunks, Repr := groups, chunks, repr;
    }

    /** The derived handler shares no slice with its caller; the receiver and every other
        handler stay as they are, since nothing that exists is modified. */
    method WithAttrs(attrs: array<Attr>) returns (next: Handler)
      requires Valid()
      ensures next.Valid() && next.Collected() == After(Collected(), AddAttrs(attrs[..]))
      ensures fresh(next.Repr - Repr)
    {
      if attrs.Length == 0 {
        return this;
      }
      var copied := Copied(attrs);
      var nextGroups := Copied(groups);
      var chunkGroups := Copied(groups);
      var nextChunks := CopiedWith(chunks, Slices(chunkGroups, copied));
      next := new Handler.Of(nextGroups, nextChunks, Repr + {copied, nextGroups, chunkGroups, nextChunks});
      SameViews(this, next, chunks.Length);
    }

    method WithGroup(name: string) returns (next: Handler)
      requires Valid()
      ensures next.Valid() && next.Collected() == After(Collected(), OpenGroup(name))
      ensures fresh(next.Repr - Repr)
    {
      if name == "" {
        return this;
      }
      var nextGroups := CopiedWith(groups, name);
      var nextChunks := Copied(chunks);
      next := new Handler.Of(nextGroups, nextChunks, Repr + {nextGroups, nextChunks});
      SameViews(this, next, chunks.Length);
    }

    method AppendChunk(printable: char -> bool, parts: Parts, k: nat)
      requires Valid() && k < chunks.Length && parts !in Repr
      requires parts.items == Quoting.Parts(printable, ChunkPairs(ChunkViews(k)))
      modifies parts
      ensures Valid() && parts.items == Quoting.Parts(printable, ChunkPairs(ChunkViews(k + 1)))
    {
      ghost var done := ChunkViews(k);
      var groupList, attrList := chunks[k].groups[..], chunks[k].attrs[..];
      AppendAll(printable, parts, attrList, groupList);
      ChunkPairsOne(done, Chunk(groupList, attrList));
      PartsAppend(printable, ChunkPairs(done), FlatAll(attrList, groupList));
    }

    method AppendChunks(printable: char -> bool) returns (parts: Parts)
      requires Valid()
      ensures fresh(parts) && Valid()
      ensures parts.items == Quoting.Parts(printable, ChunkPairs(ChunkViews(chunks.Length)))
    {
      parts := new Parts();
      for k := 0 to chunks.Length
        invariant fresh(parts)
        invariant parts.items == Quoting.Parts(printable, ChunkPairs(ChunkViews(k)))
      {
        AppendChunk(printable, parts, k);
      }
    }

    /** The attribute tail of a line; the source position, if asked for, comes last and is
        printed as it is. */
    method Tail(printable: char -> bool, record: seq<Attr>, source: Option<string>) returns (tail: string)
      requires Valid()
      ensures tail == Join(Quoting.Parts(printable, Pairs(Collected(), record)) + SourcePart(source), " ")
    {
      var parts := AppendChunks(printable);
      var groupList := groups[..];
      AppendAll(printable, parts, record, groupList);
      PartsAppend(printable, ChunkPairs(ChunkViews(chunks.Length)), FlatAll(record, groupList));
      var all := parts.items;
      assert all + [] == all;
      if source.Some? {
        all := all + ["source=" + source.value];
      }
      tail := Join(all, " ");
    }
  }

  lemma {:induction false} SameViews(a: Handler, b: Handler, n: nat)
    requires a.Valid() && b.Valid() && n <= a.chunks.Length && n <= b.chunks.Length
    requires forall k :: 0 <= k < n ==> a.chunks[k] == b.chunks[k]
    ensures a.ChunkViews(n) == b.ChunkViews(n)
  {
    if n == 0 {
    } else {
      SameViews(a, b, n - 1);
    }
  }

  /** Handlers derived from one parent are independent of it, of each other and of the
      caller's slice, which may be overwritten afterwards. */
  method SiblingsAreIndependent(parent: Handler, attrs: array<Attr>, name: string, junk: Attr)
    returns (first: Handler, second: Handler)
    requires parent.Valid() && attrs !in parent.Repr
    modifies attrs
    ensures parent.Valid() && parent.Collected() == old(parent.Collected())
    ensures first.Valid() && first.Collected() == After(old(parent.Collected()), AddAttrs(old(attrs[..])))
    ensures second.Valid() && second.Collected() == After(old(parent.Collected()), OpenGroup(name))
  {
    first := parent.WithAttrs(attrs);
    second := parent.WithGroup(name);
    for i := 0 to attrs.Length
      invariant first.Valid() && first.Collected() == After(old(parent.Collected()), AddAttrs(old(attrs[..])))
      invariant second.Valid() && second.Collected() == After(old(parent.Collected()), OpenGroup(name))
    {
      attrs[i] := junk;
    }
  }
}
