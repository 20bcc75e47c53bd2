/** internal/logging's contextHandler: it records the decorations made on it so that it can replay
    them on top of a request id written at the top level.

    The handler underneath renders a record as nested items, as slog's own handlers do: attributes
    go into the innermost open group, and a group that ends up empty is left out. */
module Logging {
  datatype Attr = Attr(key: string, value: string)

  datatype Item = Leaf(attr: Attr) | Group(name: string, items: seq<Item>)

  /** One recorded decoration: a group if it has a name, otherwise attributes. */
  datatype HandlerOp = HandlerOp(group: string, attrs: seq<Attr>)

  const REQUEST_ID := "request_id"

  function Leaves(attrs: seq<Attr>): seq<Item> {
    seq(|attrs|, i requires 0 <= i < |attrs| => Leaf(attrs[i]))
  }

  function Render(ops: seq<HandlerOp>, record: seq<Attr>): seq<Item> {
    if ops == [] then Leaves(record)
    else
      var rest := Render(ops[1..], record);
      if ops[0].group == "" then Leaves(ops[0].attrs) + rest
      else if rest == [] then [] else [Group(ops[0].group, rest)]
  }

  /** The wrapped slog.Handler: what it has been decorated with. */
  datatype Handler = Handler(ops: seq<HandlerOp>) {
    function WithAttrs(attrs: seq<Attr>): Handler {
      if attrs == [] then this else Handler(ops + [HandlerOp("", attrs)])
    }

    function WithGroup(name: string): Handler {
      if name == "" then this else Handler(ops + [HandlerOp(name, [])])
    }

    function Handle(record: seq<Attr>): seq<Item> {
      Render(ops, record)
    }
  }

  predicate WellFormed(ops: seq<HandlerOp>) {
    forall i :: 0 <= i < |ops| ==> (ops[i].group == "" <==> ops[i].attrs != [])
  }

  predicate Grouped(ops: seq<HandlerOp>) {
    exists i :: 0 <= i < |ops| && ops[i].group != ""
  }

  /** Applying recorded decorations to a handler again, first to last. */
  function Replay(h: Handler, ops: seq<HandlerOp>): Handler
    decreases |ops|
  {
    if ops == [] then h
    else Replay(if ops[0].group != "" then h.WithGroup(ops[0].group) else h.WithAttrs(ops[0].attrs), ops[1..])
  }

  lemma {:induction false} ReplayAppends(h: Handler, ops: seq<HandlerOp>)
    requires WellFormed(ops)
    ensures Replay(h, ops) == Handler(h.ops + ops)
    decreases |ops|
  {
    if ops == [] {
      assert h.ops + ops == h.ops;
    } else {
      assert ops[0] == HandlerOp(ops[0].group, ops[0].attrs) && (ops[0].group != "" ==> ops[0].attrs == []);
      ReplayAppends(if ops[0].group != "" then h.WithGroup(ops[0].group) else h.WithAttrs(ops[0].attrs), ops[1..]);
      assert h.ops + [ops[0]] + ops[1..] == h.ops + ops;
    }
  }

  /** One more decoration on a replayed handler is one more operation replayed. */
  lemma ReplaySnoc(h: Handler, ops: seq<HandlerOp>, op: HandlerOp)
    requires WellFormed(ops) && (op.group == "" <==> op.attrs != [])
    ensures Replay(h, ops + [op]) ==
            if op.group != "" then Replay(h, ops).WithGroup(op.group) else Replay(h, ops).WithAttrs(op.attrs)
  {
    ReplayAppends(h, ops);
    ReplayAppends(h, ops + [op]);
    assert h.ops + (ops + [op]) == h.ops + ops + [op];
    assert op.group != "" ==> op == HandlerOp(op.group, []);
  }

  // ----- Go slices, as far as append can share them -----

  datatype Slice = Slice(arr: array<HandlerOp>, len: nat, cap: nat)

  predicate SliceOk(s: Slice) {
    s.len <= s.cap <= s.arr.Length
  }

  function View(s: Slice): seq<HandlerOp>
    requires SliceOk(s)
    reads s.arr
  {
    s.arr[..s.len]
  }

  /** slices.Clip: no room left to append in place. */
  function Clip(s: Slice): Slice {
    s.(cap := s.len)
  }

  /** append: in place if there is room, else into a new and larger array. */
  method Append(s: Slice, op: HandlerOp) returns (r: Slice)
    requires SliceOk(s)
    modifies if s.len < s.cap then {s.arr} else {}
    ensures SliceOk(r) && View(r) == old(View(s)) + [op]
    ensures if s.len == s.cap then fresh(r.arr) else r == s.(len := s.len + 1)
  {
    if s.len < s.cap {
      s.arr[s.len] := op;
      return Slice(s.arr, s.len + 1, s.cap);
    }
    var bigger := new HandlerOp[2 * s.len + 1](i requires 0 <= i <= 2 * s.len reads s.arr =>
                                                 if i < s.len && i < s.arr.Length then s.arr[i] else op);
    return Slice(bigger, s.len + 1, bigger.Length);
  }

  /** Why Clip is needed: without it, whenever the parent's slice has spare room, two handlers derived
      from it share an array, and the second append overwrites what the first recorded. */
  method AppendingTwiceCollides(parent: Slice, first: HandlerOp, second: HandlerOp) returns (a: Slice, b: Slice)
    requires SliceOk(parent) && parent.len < parent.cap
    modifies parent.arr
    ensures SliceOk(a) && SliceOk(b)
    ensures View(a) == View(b) == old(View(parent)) + [second]
  {
    a := Append(parent, first);
    b := Append(parent, second);
    assert a == b;
  }

  // ----- the handler -----

  class ContextHandler {
    const root: Handler
    const inner: Handler
    const ops: Slice
    const grouped: bool

    ghost predicate Valid()
      reads ops.arr
    {
      && SliceOk(ops) && root.ops == []
      && WellFormed(View(ops))
      && inner == Replay(root, View(ops))
      && (grouped <==> Grouped(View(ops)))
    }

    /** What has been recorded on this chain. */
    ghost function Recorded(): seq<HandlerOp>
      requires Valid()
      reads ops.arr
    {
      View(ops)
    }

    constructor (root: Handler, inner: Handler, ops: Slice, grouped: bool)
      ensures this.root == root && this.inner == inner && this.ops == ops && this.grouped == grouped
    {
      this.root, this.inner, this.ops, this.grouped := root, inner, ops, grouped;
    }

    /** WithAttrs changes no existing handler: it writes only to memory it allocates. */
    method WithAttrs(attrs: seq<Attr>) returns (h: ContextHandler)
      requires Valid()
      ensures h.Valid()
      ensures h.Recorded() == if attrs == [] then old(Recorded()) else old(Recorded()) + [HandlerOp("", attrs)]
      ensures attrs != [] ==> fresh(h) && fresh(h.ops.arr)
    {
      if attrs == [] {
        return this;
      }
      var extended := Append(Clip(ops), HandlerOp("", attrs));
      h := new ContextHandler(root, inner.WithAttrs(attrs), extended, grouped);
      GroupedSnoc(View(ops), HandlerOp("", attrs));
      ReplaySnoc(root, View(ops), HandlerOp("", attrs));
    }

    method WithGroup(name: string) returns (h: ContextHandler)
      requires Valid()
      ensures h.Valid()
      ensures h.Recorded() == if name == "" then old(Recorded()) else old(Recorded()) + [HandlerOp(name, [])]
      ensures name != "" ==> fresh(h) && fresh(h.ops.arr)
    {
      if name == "" {
        return this;
      }
      var extended := Append(Clip(ops), HandlerOp(name, []));
      h := new ContextHandler(root, inner.WithGroup(name), extended, true);
      GroupedSnoc(View(ops), HandlerOp(name, []));
      ReplaySnoc(root, View(ops), HandlerOp(name, []));
    }

    /** Handle. With a request id the output is the undecorated output with one more item, the id,
        at the top level: last if no group is open, first if one is. */
    method Handle(requestId: string, record: seq<Attr>) returns (out: seq<Item>)
      requires Valid()
      ensures var plain, id := Render(Recorded(), record), Leaf(Attr(REQUEST_ID, requestId));
              if requestId == "" then out == plain
              else if Grouped(Recorded()) then out == [id] + plain
              else out == plain + [id]
    {
      ReplayOnBare(root, View(ops));
      if requestId == "" {
        return inner.Handle(record);
      }
      var id := Attr(REQUEST_ID, requestId);
      if !grouped {
        AppendedAtTop(View(ops), record, id);
        return inner.Handle(record + [id]);
      }
      var target := root.WithAttrs([id]);
      var i := 0;
      while i < ops.len
        invariant 0 <= i <= ops.len
        invariant target == Handler([HandlerOp("", [id])] + View(ops)[..i])
      {
        var op := ops.arr[i];
        assert View(ops)[..i + 1] == View(ops)[..i] + [op];
        if op.group != "" {
          assert op == HandlerOp(op.group, []);
          target := target.WithGroup(op.group);
        } else {
          target := target.WithAttrs(op.attrs);
        }
        i := i + 1;
      }
      assert View(ops)[..ops.len] == View(ops);
      IdFirst(View(ops), record, id);
      return target.Handle(record);
    }
  }

  lemma ReplayOnBare(h: Handler, ops: seq<HandlerOp>)
    requires WellFormed(ops) && h.ops == []
    ensures Replay(h, ops) == Handler(ops)
  {
    ReplayAppends(h, ops);
    assert h.ops + ops == ops;
  }

  /** An attribute recorded before everything else stands first, at the top level. */
  lemma IdFirst(ops: seq<HandlerOp>, record: seq<Attr>, id: Attr)
    ensures Render([HandlerOp("", [id])] + ops, record) == [Leaf(id)] + Render(ops, record)
  {
    assert ([HandlerOp("", [id])] + ops)[1..] == ops;
    assert Leaves([id]) == [Leaf(id)];
  }

  lemma GroupedSnoc(ops: seq<HandlerOp>, op: HandlerOp)
    ensures Grouped(ops + [op]) <==> Grouped(ops) || op.group != ""
  {
    if Grouped(ops) {
      var i :| 0 <= i < |ops| && ops[i].group != "";
      assert (ops + [op])[i].group != "";
    }
    assert (ops + [op])[|ops|] == op;
  }

  /** With no group open, an attribute added to the record lands at the top level. */
  lemma {:induction false} AppendedAtTop(ops: seq<HandlerOp>, record: seq<Attr>, id: Attr)
    requires !Grouped(ops)
    ensures Render(ops, record + [id]) == Render(ops, record) + [Leaf(id)]
  {
    if ops == [] {
      assert Leaves(record + [id]) == Leaves(record) + [Leaf(id)];
    } else {
      assert ops[0].group == "";
      assert forall i :: 0 <= i < |ops[1..]| ==> ops[1..][i] == ops[i + 1];
      AppendedAtTop(ops[1..], record, id);
    }
  }

  /** With no group open, decorations come out at the top level in order, and the record after them. */
  lemma {:induction false} FlatRender(ops: seq<HandlerOp>, record: seq<Attr>)
    requires !Grouped(ops)
    ensures Render(ops, record) == Leaves(AllAttrs(ops) + record)
  {
    if ops == [] {
      assert AllAttrs(ops) + record == record;
    } else {
      assert ops[0].group == "";
      assert forall i :: 0 <= i < |ops[1..]| ==> ops[1..][i] == ops[i + 1];
      FlatRender(ops[1..], record);
      var rest := AllAttrs(ops[1..]) + record;
      assert Leaves(ops[0].attrs) + Leaves(rest) == Leaves(ops[0].attrs + rest);
      assert ops[0].attrs + rest == ops[0].attrs + AllAttrs(ops[1..]) + record;
    }
  }

  function AllAttrs(ops: seq<HandlerOp>): seq<Attr> {
    if ops == [] then [] else ops[0].attrs + AllAttrs(ops[1..])
  }

  /** An open group takes in everything recorded after it, and the record. */
  lemma {:induction false} GroupRender(before: seq<HandlerOp>, name: string, inside: seq<HandlerOp>, record: seq<Attr>)
    requires !Grouped(before) && name != ""
    ensures Render(before + ([HandlerOp(name, [])] + inside), record) ==
            Leaves(AllAttrs(before)) +
            (if Render(inside, record) == [] then [] else [Group(name, Render(inside, record))])
  {
    var tail := [HandlerOp(name, [])] + inside;
    assert tail[1..] == inside;
    if before == [] {
      assert before + tail == tail;
    } else {
      assert before[0].group == "";
      assert forall i :: 0 <= i < |before[1..]| ==> before[1..][i] == before[i + 1];
      assert (before + tail)[0] == before[0] && (before + tail)[1..] == before[1..] + tail;
      GroupRender(before[1..], name, inside, record);
      assert Leaves(before[0].attrs + AllAttrs(before[1..])) == Leaves(before[0].attrs) + Leaves(AllAttrs(before[1..]));
    }
  }

  predicate AtTop(items: seq<Item>, leaf: Item) {
    leaf in items
  }

  /** With a group open it does not, whatever the record: the fast path would hide the id inside. */
  lemma {:induction false} HiddenInGroup(ops: seq<HandlerOp>, record: seq<Attr>, id: Attr)
    requires Grouped(ops) && forall i, j :: 0 <= i < |ops| && 0 <= j < |ops[i].attrs| ==> ops[i].attrs[j] != id
    ensures !AtTop(Render(ops, record + [id]), Leaf(id))
  {
    if ops[0].group == "" {
      var i :| 0 <= i < |ops| && ops[i].group != "";
      assert ops[1..][i - 1].group != "";
      assert forall k :: 0 <= k < |ops[1..]| ==> ops[1..][k] == ops[k + 1];
      HiddenInGroup(ops[1..], record, id);
      assert forall j :: 0 <= j < |ops[0].attrs| ==> Leaves(ops[0].attrs)[j] != Leaf(id);
    }
  }
}
