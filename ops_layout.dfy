/**
  What `str_ops` of pyproteum/ProteumReport.py emits: one fixed-width entry per
  operator name, in the order of the key list, and a line break after every third.
 */
module OpsLayout {
  import opened Text

  /**
    What `str_ops` emits for one key: `" %-15s %5d    " % (key, count)`. A space,
    the key, spaces filling its field to 15 characters, a space, spaces filling
    the count's field to 5 characters, the count's digits, four spaces; a key or
    count longer than its field gets no filling.
   */
  function EntryText(key: string, count: int): (r: string)
    ensures var c := IntToString(count);
      var keyFill := if |key| < 15 then 15 - |key| else 0;
      var countFill := if |c| < 5 then 5 - |c| else 0;
      && r == " " + (key + Spaces(keyFill)) + " " + (Spaces(countFill) + c) + "    "
      && |r| == 1 + (|key| + keyFill) + 1 + (countFill + |c|) + 4
  {
    var c := IntToString(count);
    PadRightFill(key, 15);
    PadLeftFill(c, 5);
    " " + PadRight(key, 15) + " " + PadLeft(c, 5) + "    "
  }

  /** The output of `str_ops` as a sequence of pieces: an entry per key, or a line break. */
  datatype Piece = Entry(key: string) | Break

  /** The pieces `str_ops` emits for `keys`: each key, and a break after every third. */
  function Layout(keys: seq<string>): (r: seq<Piece>)
    ensures forall i | 0 <= i < |r| :: r[i].Entry? ==> r[i].key in keys
  {
    if keys == [] then []
    else Layout(keys[..|keys| - 1]) + [Entry(keys[|keys| - 1])] + (if |keys| % 3 == 0 then [Break] else [])
  }

  /** Every entry of `ps` has a count in `ops`. */
  predicate Covers(ps: seq<Piece>, ops: map<string, int>) {
    forall i | 0 <= i < |ps| :: ps[i].Entry? ==> ps[i].key in ops
  }

  /** The text of one piece: an entry with its count from `ops`, or `endl`. */
  function PieceText(p: Piece, ops: map<string, int>, endl: string): string
    requires p.Entry? ==> p.key in ops
  {
    if p.Entry? then EntryText(p.key, ops[p.key]) else endl
  }

  /** The text of a piece sequence, the pieces' texts in order. */
  function RenderPieces(ps: seq<Piece>, ops: map<string, int>, endl: string): string
    requires Covers(ps, ops)
  {
    if ps == [] then ""
    else RenderPieces(ps[..|ps| - 1], ops, endl) + PieceText(ps[|ps| - 1], ops, endl)
  }

  /** Rendering one more piece appends its text. */
  lemma RenderSnoc(ps: seq<Piece>, p: Piece, ops: map<string, int>, endl: string)
    requires Covers(ps, ops) && (p.Entry? ==> p.key in ops)
    ensures Covers(ps + [p], ops)
    ensures RenderPieces(ps + [p], ops, endl) == RenderPieces(ps, ops, endl) + PieceText(p, ops, endl)
  {
    assert (ps + [p])[..|ps|] == ps;
  }

  /** One more key adds its entry, and a break when it is the third of its row. */
  lemma LayoutSnoc(keys: seq<string>, key: string)
    ensures Layout(keys + [key]) == Layout(keys) + [Entry(key)] + (if (|keys| + 1) % 3 == 0 then [Break] else [])
  {
    assert (keys + [key])[..|keys|] == keys;
  }

  /** `n` keys give `n` entries and `n / 3` breaks. */
  lemma {:induction false} LayoutLength(keys: seq<string>)
    ensures |Layout(keys)| == |keys| + |keys| / 3
  {
    if keys != [] {
      var n := |keys|;
      LayoutLength(keys[..n - 1]);
      PositionOfEntry(n - 1);
    }
  }

  /**
    Position `p` of a layout is a break exactly when `p % 4 == 3`, and otherwise
    the entry of key `3 * (p / 4) + p % 4`.
   */
  lemma {:induction false} LayoutPiece(keys: seq<string>, p: nat)
    requires p < |Layout(keys)|
    ensures Layout(keys)[p].Break? <==> p % 4 == 3
    ensures p % 4 != 3 ==> 3 * (p / 4) + p % 4 < |keys| && Layout(keys)[p] == Entry(keys[3 * (p / 4) + p % 4])
    decreases |keys|
  {
    var n := |keys|;
    var init := keys[..n - 1];
    var L := Layout(init);
    LayoutLength(init);
    PositionOfEntry(n - 1);
    if p < |L| {
      assert Layout(keys)[p] == L[p];
      LayoutPiece(init, p);
      if p % 4 != 3 {
        assert keys[3 * (p / 4) + p % 4] == init[3 * (p / 4) + p % 4];
      }
    } else if p == |L| {
      assert Layout(keys)[p] == Entry(keys[n - 1]);
    } else {
      assert n % 3 == 0 && p == |L| + 1;
    }
  }

  /**
    The layout in closed form: `n` keys give `n + n / 3` pieces, in groups of four
    positions; position `p` is a break exactly when `p % 4 == 3`, and otherwise it is
    the entry of key `3 * (p / 4) + p % 4`. So every key appears once, in order, and
    a break follows every third entry and nothing else.
   */
  lemma LayoutAt(keys: seq<string>)
    ensures |Layout(keys)| == |keys| + |keys| / 3
    ensures forall p | 0 <= p < |Layout(keys)| ::
      && (Layout(keys)[p].Break? <==> p % 4 == 3)
      && (p % 4 != 3 ==> 3 * (p / 4) + p % 4 < |keys| && Layout(keys)[p] == Entry(keys[3 * (p / 4) + p % 4]))
  {
    LayoutLength(keys);
    forall p | 0 <= p < |Layout(keys)|
      ensures (Layout(keys)[p].Break? <==> p % 4 == 3)
      ensures p % 4 != 3 ==> 3 * (p / 4) + p % 4 < |keys| && Layout(keys)[p] == Entry(keys[3 * (p / 4) + p % 4])
    {
      LayoutPiece(keys, p);
    }
  }

  /** The arithmetic behind `LayoutAt`: where entry `k` lands, and the break after it. */
  lemma PositionOfEntry(k: nat)
    ensures var p := k + k / 3;
      && p % 4 != 3 && 3 * (p / 4) + p % 4 == k
      && (k % 3 == 2 ==> (p + 1) % 4 == 3)
      && k + 1 + (k + 1) / 3 == p + 1 + (if k % 3 == 2 then 1 else 0)
  {
    var q, r := k / 3, k % 3;
    assert k == 3 * q + r;
    assert k + k / 3 == 4 * q + r;
    assert (4 * q + r) / 4 == q && (4 * q + r) % 4 == r;
    if r == 2 {
      assert (k + 1) / 3 == q + 1;
      assert (4 * q + 3) % 4 == 3;
    } else {
      assert (k + 1) / 3 == q;
    }
  }

  /** One turn of the `str_ops` loop: the entry of key `i`, then `endl` when it completes a row of three. */
  lemma StrOpsStep(keys: seq<string>, ops: map<string, int>, endl: string, i: nat)
    requires i < |keys| && keys[i] in ops
    requires Covers(Layout(keys[..i]), ops)
    ensures Covers(Layout(keys[..i + 1]), ops)
    ensures RenderPieces(Layout(keys[..i + 1]), ops, endl) ==
      RenderPieces(Layout(keys[..i]), ops, endl) + EntryText(keys[i], ops[keys[i]])
      + (if (i + 1) % 3 == 0 then endl else "")
  {
    var key := keys[i];
    var laid := Layout(keys[..i]);
    assert keys[..i + 1] == keys[..i] + [key];
    LayoutSnoc(keys[..i], key);
    RenderSnoc(laid, Entry(key), ops, endl);
    if (i + 1) % 3 == 0 {
      RenderSnoc(laid + [Entry(key)], Break, ops, endl);
    } else {
      assert Layout(keys[..i + 1]) == laid + [Entry(key)];
    }
  }

  /** The column counter of `str_ops` after entry `i`. */
  lemma NextColumn(i: nat, j: int)
    requires j == i % 3
    ensures (j + 1) % 3 == (i + 1) % 3
  {
  }
}
