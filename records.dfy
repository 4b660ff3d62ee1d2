/**
 * The sensor dictionaries the readers hand to their publisher: an ordered
 * dictionary of named values, built the way `OrderedDict([...])` and
 * `d[key] = value` build one, and the publication log that receives them.
 */
module Records {
  import opened Wrappers
  import opened PyText

  /** A dictionary value. Floating-point values are kept exact or as the accepted text. */
  datatype Value =
    | Int(i: int)
    | Str(s: string)
    | Float(text: string)         // `float(text)`: the text `float()` accepted, value not computed
    | Ratio(num: int, den: nat)   // the float nearest to num / den
    | HostClock                   // the host's current time, formatted as text
    | DeviceClock(seconds: int)   // a device timestamp, formatted as UTC text

  type Entry = (string, Value)

  /** An ordered dictionary: entries in insertion order. */
  type Fields = seq<Entry>

  /** One `(key, value)` pair of a dictionary display; `None` when evaluating the value raises. */
  datatype Cell = Cell(key: string, value: Option<Value>)

  /** What one call of the publisher (`sensorFinisher`) receives. */
  datatype Publication = Publication(sensor: string, fields: Fields)

  function Keys(d: Fields): seq<string> {
    seq(|d|, i requires 0 <= i < |d| => d[i].0)
  }

  predicate DistinctKeys(d: Fields) {
    forall i, j :: 0 <= i < j < |d| ==> d[i].0 != d[j].0
  }

  /** Where key `k` sits in `d`: its first position, or `|d|` when it is absent. */
  function KeyIndex(d: Fields, k: string): (i: nat)
    ensures i <= |d| && (i < |d| ==> d[i].0 == k)
    ensures forall j :: 0 <= j < i ==> d[j].0 != k
  {
    if d == [] then 0 else if d[0].0 == k then 0 else 1 + KeyIndex(d[1..], k)
  }

  /** The first position of a key is the only position with those two properties. */
  lemma KeyIndexUnique(d: Fields, k: string, i: nat)
    requires i <= |d| && (i < |d| ==> d[i].0 == k)
    requires forall j :: 0 <= j < i ==> d[j].0 != k
    ensures KeyIndex(d, k) == i
  {
  }

  /** `d.get(k)`. */
  function Lookup(d: Fields, k: string): (r: Option<Value>)
    ensures r.Some? <==> k in Keys(d)
  {
    var i := KeyIndex(d, k);
    assert i < |d| ==> Keys(d)[i] == k;
    if i < |d| then Some(d[i].1) else None
  }

  /** `d[k] = v`: an existing key keeps its position and takes the new value; a new key goes last. */
  function Put(d: Fields, k: string, v: Value): (r: Fields)
    ensures k in Keys(d) ==> Keys(r) == Keys(d)
    ensures k !in Keys(d) ==> Keys(r) == Keys(d) + [k]
  {
    var i := KeyIndex(d, k);
    assert i < |d| ==> Keys(d)[i] == k;
    if i < |d| then d[i := (k, v)] else d + [(k, v)]
  }

  /** After `d[k] = v`, `k` holds `v` and every other key keeps its value; distinct keys stay distinct. */
  lemma PutLookup(d: Fields, k: string, v: Value)
    ensures Lookup(Put(d, k, v), k) == Some(v)
    ensures forall k' :: k' != k ==> Lookup(Put(d, k, v), k') == Lookup(d, k')
    ensures DistinctKeys(d) ==> DistinctKeys(Put(d, k, v))
  {
    var r := Put(d, k, v);
    KeyIndexUnique(r, k, KeyIndex(d, k));
    forall k' | k' != k ensures Lookup(r, k') == Lookup(d, k') {
      var i' := KeyIndex(d, k');
      assert forall j :: 0 <= j < |d| && j < |r| ==> (r[j].0 == k' <==> d[j].0 == k');
      if i' < |d| {
        KeyIndexUnique(r, k', i');
      } else {
        KeyIndexUnique(r, k', |r|);
      }
    }
  }

  /** The keys in order of first appearance. */
  function FirstKeys(ks: seq<string>): (r: seq<string>)
    ensures forall k :: k in r <==> k in ks
    ensures |r| <= |ks|
  {
    if ks == [] then []
    else
      var p := FirstKeys(ks[..|ks| - 1]);
      assert ks == ks[..|ks| - 1] + [ks[|ks| - 1]];
      if ks[|ks| - 1] in p then p else p + [ks[|ks| - 1]]
  }

  /** A key listed twice is kept once, so the dictionary has fewer keys than the display has cells. */
  lemma {:induction false} FirstKeysMerge(ks: seq<string>, i: nat, j: nat)
    requires i < j < |ks| && ks[i] == ks[j]
    ensures |FirstKeys(ks)| < |ks|
  {
    var init := ks[..|ks| - 1];
    if j < |ks| - 1 {
      FirstKeysMerge(init, i, j);
    } else {
      assert ks[j] in init by { assert init[i] == ks[i]; }
    }
  }

  function CellKeys(cells: seq<Cell>): (ks: seq<string>)
    ensures |ks| == |cells| && forall i :: 0 <= i < |cells| ==> ks[i] == cells[i].key
  {
    if cells == [] then [] else CellKeys(cells[..|cells| - 1]) + [cells[|cells| - 1].key]
  }

  /** The value of the last cell with key `k`, the one a dictionary display keeps. */
  function LastValue(cells: seq<Cell>, k: string): Option<Value> {
    if cells == [] then None
    else if cells[|cells| - 1].key == k then cells[|cells| - 1].value
    else LastValue(cells[..|cells| - 1], k)
  }

  predicate AllEvaluate(cells: seq<Cell>) {
    forall i :: 0 <= i < |cells| ==> cells[i].value.Some?
  }

  /**
   * `OrderedDict([(k0, v0), (k1, v1), ...])`: `None` when any value raises; otherwise
   * the keys in order of first appearance, each holding the value of its last cell.
   */
  function Record(cells: seq<Cell>): (r: Option<Fields>)
    ensures r.Some? <==> AllEvaluate(cells)
  {
    if cells == [] then Some([])
    else
      var init, last := cells[..|cells| - 1], cells[|cells| - 1];
      var p := Record(init);
      if p.None? || last.value.None? then None
      else Some(Put(p.value, last.key, last.value.value))
  }

  /** Each key of a record holds the value of its last cell. */
  lemma {:induction false} RecordLookup(cells: seq<Cell>)
    requires AllEvaluate(cells)
    ensures forall k :: Lookup(Record(cells).value, k) == LastValue(cells, k)
  {
    if cells != [] {
      RecordLookup(cells[..|cells| - 1]);
      var last := cells[|cells| - 1];
      PutLookup(Record(cells[..|cells| - 1]).value, last.key, last.value.value);
    }
  }

  /** A record's keys are distinct and in order of first appearance. */
  lemma {:induction false} RecordKeys(cells: seq<Cell>)
    requires AllEvaluate(cells)
    ensures DistinctKeys(Record(cells).value)
    ensures Keys(Record(cells).value) == FirstKeys(CellKeys(cells))
  {
    if cells != [] {
      var init, last := cells[..|cells| - 1], cells[|cells| - 1];
      RecordKeys(init);
      var p := Record(init).value;
      PutLookup(p, last.key, last.value.value);
      assert CellKeys(cells)[..|cells| - 1] == CellKeys(init);
    }
  }

  /** With distinct keys and no raising value, the record holds exactly the cells, in order. */
  lemma {:induction false} RecordOfDistinct(cells: seq<Cell>)
    requires AllEvaluate(cells)
    requires forall i, j :: 0 <= i < j < |cells| ==> cells[i].key != cells[j].key
    ensures Record(cells).Some? && Keys(Record(cells).value) == CellKeys(cells)
    ensures forall i :: 0 <= i < |cells| ==> Lookup(Record(cells).value, cells[i].key) == cells[i].value
  {
    RecordLookup(cells);
    if cells != [] {
      var init := cells[..|cells| - 1];
      RecordOfDistinct(init);
      PutLookup(Record(init).value, cells[|cells| - 1].key, cells[|cells| - 1].value.value);
      assert cells[|cells| - 1].key !in CellKeys(init);
      assert CellKeys(cells) == CellKeys(init) + [cells[|cells| - 1].key];
      forall i | 0 <= i < |cells| ensures LastValue(cells, cells[i].key) == cells[i].value {
        if i < |cells| - 1 { assert init[i] == cells[i]; }
      }
    }
  }

  /** `int(text)` as a dictionary value; `None` when it raises. */
  function IntValue(text: string): Option<Value> {
    if IsIntText(text) then Some(Int(IntOf(text))) else None
  }

  /** No value of a display raises. */
  predicate AllSome(values: seq<Option<Value>>) {
    forall i :: 0 <= i < |values| ==> values[i].Some?
  }

  lemma AllSomeConcat(a: seq<Option<Value>>, b: seq<Option<Value>>)
    ensures AllSome(a + b) <==> AllSome(a) && AllSome(b)
  {
    if AllSome(a) && AllSome(b) {
      forall i | 0 <= i < |a + b| ensures (a + b)[i].Some? {
        if i >= |a| { assert (a + b)[i] == b[i - |a|]; }
      }
    }
    if AllSome(a + b) {
      forall i | 0 <= i < |a| ensures a[i].Some? {
        assert (a + b)[i] == a[i];
      }
      forall i | 0 <= i < |b| ensures b[i].Some? {
        assert (a + b)[|a| + i] == b[i];
      }
    }
  }

  predicate Distinct(ks: seq<string>) {
    forall i, j :: 0 <= i < j < |ks| ==> ks[i] != ks[j]
  }

  /** The dictionary display `OrderedDict([(keys[0], values[0]), ...])` as cells. */
  function Display(keys: seq<string>, values: seq<Option<Value>>): (cells: seq<Cell>)
    requires |keys| == |values|
    ensures |cells| == |keys|
    ensures forall i :: 0 <= i < |keys| ==> cells[i] == Cell(keys[i], values[i])
  {
    seq(|keys|, i requires 0 <= i < |keys| => Cell(keys[i], values[i]))
  }

  /** The entries of a display none of whose values raises. */
  function Entries(keys: seq<string>, values: seq<Option<Value>>): (d: Fields)
    requires |keys| == |values| && AllSome(values)
    ensures Keys(d) == keys
  {
    seq(|keys|, i requires 0 <= i < |keys| => (keys[i], values[i].value))
  }

  /**
   * A display with distinct keys raises exactly when one of its values does; otherwise
   * it is the dictionary of exactly those entries, in order.
   */
  lemma {:induction false} DisplayRecord(keys: seq<string>, values: seq<Option<Value>>)
    requires |keys| == |values| && Distinct(keys)
    ensures Record(Display(keys, values)).Some? <==> AllSome(values)
    ensures AllSome(values) ==> Record(Display(keys, values)) == Some(Entries(keys, values))
  {
    var cells := Display(keys, values);
    assert AllEvaluate(cells) <==> AllSome(values);
    if keys != [] && AllSome(values) {
      var n := |keys| - 1;
      var ks, vs := keys[..n], values[..n];
      assert cells[..n] == Display(ks, vs);
      assert AllSome(vs);
      DisplayRecord(ks, vs);
      var e := Entries(ks, vs);
      assert keys[n] !in Keys(e);
      KeyIndexUnique(e, keys[n], |e|);
      assert e + [(keys[n], values[n].value)] == Entries(keys, values);
    }
  }

  // DisplayRecord for displays of two, three, six, seven and eight written-out values.

  lemma Display2(keys: seq<string>, a: Option<Value>, b: Option<Value>)
    requires |keys| == 2 && Distinct(keys)
    ensures Record(Display(keys, [a, b])).Some? <==> a.Some? && b.Some?
    ensures a.Some? && b.Some? ==>
      Record(Display(keys, [a, b])) == Some([(keys[0], a.value), (keys[1], b.value)])
  {
    var v := [a, b];
    assert v[0] == a && v[1] == b;
    DisplayRecord(keys, v);
    assert AllSome(v) <==> a.Some? && b.Some?;
    if AllSome(v) {
      assert Entries(keys, v) == [(keys[0], a.value), (keys[1], b.value)];
    }
  }

  lemma Display3(keys: seq<string>, a: Option<Value>, b: Option<Value>, c: Option<Value>)
    requires |keys| == 3 && Distinct(keys)
    ensures Record(Display(keys, [a, b, c])).Some? <==> a.Some? && b.Some? && c.Some?
    ensures a.Some? && b.Some? && c.Some? ==>
      Record(Display(keys, [a, b, c])) == Some([(keys[0], a.value), (keys[1], b.value), (keys[2], c.value)])
  {
    var v := [a, b, c];
    assert v[0] == a && v[1] == b && v[2] == c;
    DisplayRecord(keys, v);
    assert AllSome(v) <==> a.Some? && b.Some? && c.Some?;
    if AllSome(v) {
      assert Entries(keys, v) == [(keys[0], a.value), (keys[1], b.value), (keys[2], c.value)];
    }
  }

  lemma Display6(keys: seq<string>, a: Option<Value>, b: Option<Value>, c: Option<Value>, d: Option<Value>, e: Option<Value>, f: Option<Value>)
    requires |keys| == 6 && Distinct(keys)
    ensures Record(Display(keys, [a, b, c, d, e, f])).Some? <==> a.Some? && b.Some? && c.Some? && d.Some? && e.Some? && f.Some?
    ensures a.Some? && b.Some? && c.Some? && d.Some? && e.Some? && f.Some? ==>
      Record(Display(keys, [a, b, c, d, e, f])) == Some([(keys[0], a.value), (keys[1], b.value), (keys[2], c.value), (keys[3], d.value), (keys[4], e.value), (keys[5], f.value)])
  {
    var v := [a, b, c, d, e, f];
    assert v[0] == a && v[1] == b && v[2] == c && v[3] == d && v[4] == e && v[5] == f;
    DisplayRecord(keys, v);
    assert AllSome(v) <==> a.Some? && b.Some? && c.Some? && d.Some? && e.Some? && f.Some?;
    if AllSome(v) {
      assert Entries(keys, v) == [(keys[0], a.value), (keys[1], b.value), (keys[2], c.value), (keys[3], d.value), (keys[4], e.value), (keys[5], f.value)];
    }
  }

  lemma Display7(keys: seq<string>, a: Option<Value>, b: Option<Value>, c: Option<Value>, d: Option<Value>, e: Option<Value>, f: Option<Value>, g: Option<Value>)
    requires |keys| == 7 && Distinct(keys)
    ensures Record(Display(keys, [a, b, c, d, e, f, g])).Some? <==> a.Some? && b.Some? && c.Some? && d.Some? && e.Some? && f.Some? && g.Some?
    ensures a.Some? && b.Some? && c.Some? && d.Some? && e.Some? && f.Some? && g.Some? ==>
      Record(Display(keys, [a, b, c, d, e, f, g])) == Some([(keys[0], a.value), (keys[1], b.value), (keys[2], c.value), (keys[3], d.value), (keys[4], e.value), (keys[5], f.value), (keys[6], g.value)])
  {
    var v := [a, b, c, d, e, f, g];
    assert v[0] == a && v[1] == b && v[2] == c && v[3] == d && v[4] == e && v[5] == f && v[6] == g;
    DisplayRecord(keys, v);
    assert AllSome(v) <==> a.Some? && b.Some? && c.Some? && d.Some? && e.Some? && f.Some? && g.Some?;
    if AllSome(v) {
      assert Entries(keys, v) == [(keys[0], a.value), (keys[1], b.value), (keys[2], c.value), (keys[3], d.value), (keys[4], e.value), (keys[5], f.value), (keys[6], g.value)];
    }
  }

  lemma Display8(keys: seq<string>, a: Option<Value>, b: Option<Value>, c: Option<Value>, d: Option<Value>, e: Option<Value>, f: Option<Value>, g: Option<Value>, h: Option<Value>)
    requires |keys| == 8 && Distinct(keys)
    ensures Record(Display(keys, [a, b, c, d, e, f, g, h])).Some? <==> a.Some? && b.Some? && c.Some? && d.Some? && e.Some? && f.Some? && g.Some? && h.Some?
    ensures a.Some? && b.Some? && c.Some? && d.Some? && e.Some? && f.Some? && g.Some? && h.Some? ==>
      Record(Display(keys, [a, b, c, d, e, f, g, h])) == Some([(keys[0], a.value), (keys[1], b.value), (keys[2], c.value), (keys[3], d.value), (keys[4], e.value), (keys[5], f.value), (keys[6], g.value), (keys[7], h.value)])
  {
    var v := [a, b, c, d, e, f, g, h];
    assert v[0] == a && v[1] == b && v[2] == c && v[3] == d && v[4] == e && v[5] == f && v[6] == g && v[7] == h;
    DisplayRecord(keys, v);
    assert AllSome(v) <==> a.Some? && b.Some? && c.Some? && d.Some? && e.Some? && f.Some? && g.Some? && h.Some?;
    if AllSome(v) {
      assert Entries(keys, v) == [(keys[0], a.value), (keys[1], b.value), (keys[2], c.value), (keys[3], d.value), (keys[4], e.value), (keys[5], f.value), (keys[6], g.value), (keys[7], h.value)];
    }
  }

  /** Storing the value a key already holds changes nothing. */
  lemma PutExisting(d: Fields, k: string, v: Value)
    requires Lookup(d, k) == Some(v)
    ensures Put(d, k, v) == d
  {
    var i := KeyIndex(d, k);
    assert d[i] == (k, v);
  }

  /** The last cell with a key decides its value, whatever comes before the block it sits in. */
  lemma {:induction false} LastValueInBlock(c: seq<Cell>, b: seq<Cell>, i: nat)
    requires i < |b| && forall j :: i < j < |b| ==> b[j].key != b[i].key
    ensures LastValue(c + b, b[i].key) == b[i].value
    decreases |b|
  {
    var cb := c + b;
    assert cb[..|cb| - 1] == c + b[..|b| - 1];
    if i < |b| - 1 {
      LastValueInBlock(c, b[..|b| - 1], i);
    }
  }

  /** Records that agree stay equal when the same cells are appended to both displays. */
  lemma {:induction false} RecordExtend(x: seq<Cell>, y: seq<Cell>, q: seq<Cell>)
    requires Record(x) == Record(y)
    ensures Record(x + q) == Record(y + q)
    decreases |q|
  {
    if q == [] {
      assert x + q == x && y + q == y;
    } else {
      var q', cell := q[..|q| - 1], q[|q| - 1];
      RecordExtend(x, y, q');
      AppendLast(x, q);
      AppendLast(y, q);
      RecordLast(x + q', cell);
      RecordLast(y + q', cell);
    }
  }

  /** A display one cell longer: the shorter display's record, then that cell stored. */
  lemma RecordLast(cells: seq<Cell>, cell: Cell)
    ensures Record(cells + [cell]) ==
      if Record(cells).None? || cell.value.None? then None
      else Some(Put(Record(cells).value, cell.key, cell.value.value))
  {
    assert (cells + [cell])[..|cells|] == cells;
  }

  /** Appending a non-empty sequence is appending all but its last element, then that one. */
  lemma AppendLast<T>(x: seq<T>, q: seq<T>)
    requires q != []
    ensures x + q == (x + q[..|q| - 1]) + [q[|q| - 1]]
  {
  }

  /** One more cell that evaluates stores its value under its key. */
  lemma RecordSnoc(cells: seq<Cell>, k: string, v: Value)
    requires Record(cells).Some?
    ensures Record(cells + [Cell(k, Some(v))]) == Some(Put(Record(cells).value, k, v))
  {
    assert (cells + [Cell(k, Some(v))])[..|cells|] == cells;
  }

  /** A prefix one longer is the prefix with the next element appended. */
  lemma TakeNext<T>(s: seq<T>, j: nat)
    requires j < |s|
    ensures s[..j + 1] == s[..j] + [s[j]]
  {
  }

  /** Concatenation is associative. */
  lemma Associative<T>(x: seq<T>, y: seq<T>, z: seq<T>)
    ensures x + (y + z) == (x + y) + z
  {
  }

  /** How many leading cells of a display evaluate before the first that raises. */
  function Evaluated(cells: seq<Cell>): (n: nat)
    ensures n <= |cells| && forall i :: 0 <= i < n ==> cells[i].value.Some?
    ensures n < |cells| ==> cells[n].value.None?
  {
    if cells == [] then 0
    else if cells[0].value.None? then 0
    else 1 + Evaluated(cells[1..])
  }

  /** Evaluating one more cell of a display stores its value under its key. */
  lemma RecordStep(cells: seq<Cell>, k: nat, d: Fields)
    requires k < |cells| && cells[k].value.Some? && Record(cells[..k]) == Some(d)
    ensures Record(cells[..k + 1]) == Some(Put(d, cells[k].key, cells[k].value.value))
  {
    assert cells[..k + 1][..k] == cells[..k];
  }

  /** A display that lists a key twice has fewer entries than cells. */
  lemma RecordMerges(cells: seq<Cell>, i: nat, j: nat)
    requires AllEvaluate(cells) && i < j < |cells| && cells[i].key == cells[j].key
    ensures |Record(cells).value| < |cells|
  {
    RecordKeys(cells);
    FirstKeysMerge(CellKeys(cells), i, j);
    assert |Keys(Record(cells).value)| == |Record(cells).value|;
  }

  /** `d[k] = v` for each cell in turn, starting from `d`; `None` once a value raises. */
  function PutCells(d: Option<Fields>, more: seq<Cell>): (r: Option<Fields>)
    ensures r.Some? <==> d.Some? && AllEvaluate(more)
  {
    if more == [] then d
    else
      var p, last := PutCells(d, more[..|more| - 1]), more[|more| - 1];
      assert forall i :: 0 <= i < |more| - 1 ==> more[..|more| - 1][i] == more[i];
      if p.None? || last.value.None? then None else Some(Put(p.value, last.key, last.value.value))
  }

  /** Storing more cells into a display's dictionary gives the dictionary of the longer display. */
  lemma {:induction false} RecordThen(cells: seq<Cell>, more: seq<Cell>)
    ensures Record(cells + more) == PutCells(Record(cells), more)
    decreases |more|
  {
    if more == [] {
      assert cells + more == cells;
    } else {
      RecordThen(cells, more[..|more| - 1]);
      assert (cells + more)[..|cells + more| - 1] == cells + more[..|more| - 1];
    }
  }

  /** A display raises once any of its cells does. */
  lemma RecordRaises(cells: seq<Cell>, i: nat)
    requires i < |cells| && cells[i].value.None?
    ensures Record(cells).None?
  {
  }

  /**
   * Repeating the first `n` cells of a block with distinct keys right after the block
   * leaves the record as it was: each repeated cell stores the value its key already holds.
   */
  lemma {:induction false} RecordRepeat(c: seq<Cell>, b: seq<Cell>, n: nat)
    requires AllEvaluate(c + b) && n <= |b|
    requires forall i, j :: 0 <= i < j < |b| ==> b[i].key != b[j].key
    ensures Record(c + b + b[..n]) == Record(c + b)
  {
    if n == 0 {
      assert c + b + b[..n] == c + b;
    } else {
      RecordRepeat(c, b, n - 1);
      RepeatOneMore(c, b, n - 1);
    }
  }

  /** The step of `RecordRepeat`: repeating cell `n` of the block stores the value it already holds. */
  lemma RepeatOneMore(c: seq<Cell>, b: seq<Cell>, n: nat)
    requires AllEvaluate(c + b) && n < |b|
    requires forall j :: n < j < |b| ==> b[j].key != b[n].key
    requires Record(c + b + b[..n]) == Record(c + b)
    ensures Record(c + b + b[..n + 1]) == Record(c + b)
  {
    var p, cell := c + b + b[..n], b[n];
    assert c + b + b[..n + 1] == p + [cell] by {
      TakeNext(b, n);
      Associative(c + b, b[..n], [cell]);
    }
    BlockValueHeld(c, b, n);
    RecordLast(p, cell);
    PutExisting(Record(c + b).value, cell.key, cell.value.value);
  }

  /** Cell `n` of a block whose key recurs no later in it: its key already holds its value. */
  lemma BlockValueHeld(c: seq<Cell>, b: seq<Cell>, n: nat)
    requires AllEvaluate(c + b) && n < |b|
    requires forall j :: n < j < |b| ==> b[j].key != b[n].key
    ensures b[n].value.Some? && Lookup(Record(c + b).value, b[n].key) == b[n].value
  {
    assert (c + b)[|c| + n] == b[n];
    RecordLookup(c + b);
    LastValueInBlock(c, b, n);
  }

  /**
   * A display that lists a run of its cells (with distinct keys) a second time right
   * after the run has the record of the display without the repetition.
   */
  lemma DisplayRepeatRun(cells: seq<Cell>, lo: nat, hi: nat)
    requires lo <= hi <= |cells|
    requires forall i, j :: lo <= i < j < hi ==> cells[i].key != cells[j].key
    ensures Record(cells[..hi] + cells[lo..hi] + cells[hi..]) == Record(cells)
  {
    if AllEvaluate(cells) {
      RepeatRunEvaluating(cells, lo, hi);
    } else {
      RepeatRunRaising(cells, lo, hi);
    }
  }

  lemma RepeatRunRaising(cells: seq<Cell>, lo: nat, hi: nat)
    requires lo <= hi <= |cells| && !AllEvaluate(cells)
    ensures !AllEvaluate(cells[..hi] + cells[lo..hi] + cells[hi..])
  {
    var i :| 0 <= i < |cells| && cells[i].value.None?;
    var head, run, tail := cells[..hi], cells[lo..hi], cells[hi..];
    if i < hi {
      assert (head + run + tail)[i] == cells[i];
    } else {
      assert (head + run + tail)[i + (hi - lo)] == cells[i];
    }
  }

  lemma RepeatRunEvaluating(cells: seq<Cell>, lo: nat, hi: nat)
    requires lo <= hi <= |cells| && AllEvaluate(cells)
    requires forall i, j :: lo <= i < j < hi ==> cells[i].key != cells[j].key
    ensures Record(cells[..hi] + cells[lo..hi] + cells[hi..]) == Record(cells)
  {
    var c, b, q := cells[..lo], cells[lo..hi], cells[hi..];
    SplitRun(cells, lo, hi);
    assert forall i, j :: 0 <= i < j < |b| ==> b[i].key != b[j].key by {
      assert forall i :: 0 <= i < |b| ==> b[i] == cells[lo + i];
    }
    RecordRepeat(c, b, |b|);
    assert b[..|b|] == b;
    RecordExtend(c + b + b, c + b, q);
  }

  /** The slices `RepeatRunEvaluating` cuts a display into. */
  lemma SplitRun(cells: seq<Cell>, lo: nat, hi: nat)
    requires lo <= hi <= |cells| && AllEvaluate(cells)
    ensures cells[..hi] == cells[..lo] + cells[lo..hi]
    ensures cells[..lo] + cells[lo..hi] + cells[hi..] == cells
    ensures AllEvaluate(cells[..lo] + cells[lo..hi])
  {
  }

  /** In a dictionary with distinct keys, each key holds the value of its entry. */
  lemma LookupDistinct(d: Fields, i: nat)
    requires Distinct(Keys(d)) && i < |d|
    ensures Lookup(d, d[i].0) == Some(d[i].1)
  {
    forall j | 0 <= j < i ensures d[j].0 != d[i].0 {
      assert Keys(d)[j] == d[j].0 && Keys(d)[i] == d[i].0;
    }
    KeyIndexUnique(d, d[i].0, i);
  }

  /** A cell whose value never raises. */
  function FixedCell(key: string, v: Value): (c: Cell)
    ensures c.key == key && c.value == Some(v)
  {
    Cell(key, Some(v))
  }

  /** The publisher the stand-alone readers hand their dictionaries to (`sensorFinisher`). */
  class Publisher {
    var log: seq<Publication>

    constructor ()
      ensures log == []
    {
      log := [];
    }

    method Finish(sensor: string, fields: Fields)
      modifies this
      ensures log == old(log) + [Publication(sensor, fields)]
    {
      log := log + [Publication(sensor, fields)];
    }
  }
}
