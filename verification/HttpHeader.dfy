/**
 HTTP header fields: printing a map as lines and splitting the lines back into a map. `std::map`
 iterates its entries in key order; nothing below depends on the order, so a header is any sequence
 of entries with distinct keys. `None` stands for a call that throws `std::out_of_range`.
 */
module HttpHeader {
  import opened Bytes
  import opened Common

  type Text = seq<byte>

  const CR: byte := 13
  const LF: byte := 10
  const COLON: byte := 58
  const CRLF: Text := [CR, LF]

  datatype Entry = Entry(key: Text, value: Text)

  ghost predicate DistinctKeys(es: seq<Entry>) {
    forall i, j :: 0 <= i < j < |es| ==> es[i].key != es[j].key
  }

  function MapOf(es: seq<Entry>): map<Text, Text> {
    if es == [] then map[] else MapOf(es[..|es| - 1])[es[|es| - 1].key := es[|es| - 1].value]
  }

  // ---- splitting, as functions -----------------------------------------------------------------

  /** `find_first_of(chars)`: the first position of any of them, or the length. */
  function FindFirstOf(s: Text, chars: Text): (i: nat)
    ensures i <= |s|
    ensures forall j :: 0 <= j < i ==> s[j] !in chars
    ensures i < |s| ==> s[i] in chars
  {
    if s == [] || s[0] in chars then 0 else FindFirstOf(s[1..], chars) + 1
  }

  function Behind(res: seq<Text>, pieces: Option<seq<Text>>): Option<seq<Text>> {
    if pieces.None? then None else Some(res + pieces.value)
  }

  /** The loop: cut at the first of the characters, skip as many as the separator has. */
  function Pieces(tmp: Text, split: Text): Option<seq<Text>>
    requires split != []
    decreases |tmp|
  {
    var i := FindFirstOf(tmp, split);
    if i == |tmp| then Some([])
    else if i + |split| > |tmp| then None
    else Behind(if i == 0 then [] else [tmp[..i]], Pieces(tmp[i + |split|..], split))
  }

  function EndsWith(s: Text, end: Text): bool {
    |s| >= |end| && s[|s| - |end|..] == end
  }

  function SplitToVector(str: Text, split: Text): Option<seq<Text>> {
    if str == [] || split == [] then Some([])
    else if |str| < |split| then None
    else Pieces(if EndsWith(str, split) then str else str + split, split)
  }

  /** What one piece adds to the map: nothing without a joiner, or with the joiner first. */
  function PutPiece(piece: Text, joiner: Text, res: map<Text, Text>): Option<map<Text, Text>> {
    var j := FindFirstOf(piece, joiner);
    if j == |piece| || j == 0 then Some(res)
    else if j + |joiner| > |piece| then None
    else Some(res[CString(piece[..j]) := piece[j + |joiner|..]])
  }

  function PutPieces(pieces: seq<Text>, joiner: Text, res: map<Text, Text>): Option<map<Text, Text>>
    decreases |pieces|
  {
    if pieces == [] then Some(res)
    else
      match PutPiece(pieces[0], joiner, res)
      case None => None
      case Some(next) => PutPieces(pieces[1..], joiner, next)
  }

  function SplitToMap(str: Text, split: Text, joiner: Text, res: map<Text, Text>): Option<map<Text, Text>> {
    if str == [] || split == [] || joiner == [] then Some(res)
    else
      match SplitToVector(str, split)
      case None => None
      case Some(pieces) => PutPieces(pieces, joiner, res)
  }

  // ---- printing --------------------------------------------------------------------------------

  function Line(e: Entry): Text {
    e.key + [COLON] + e.value
  }

  function Printed(es: seq<Entry>): Text {
    if es == [] then [] else Line(es[0]) + CRLF + Printed(es[1..])
  }

  function TotalLength(es: seq<Entry>): nat {
    if es == [] then 0 else |es[0].key| + 1 + |es[0].value| + 2 + TotalLength(es[1..])
  }

  /** A line: key, colon, value, carriage return, line feed. */
  lemma FirstLine(es: seq<Entry>)
    requires es != []
    ensures Printed(es) == es[0].key + [58] + es[0].value + [13, 10] + Printed(es[1..])
  {
  }

  /** The announced length is the printed length. */
  lemma {:induction false} LengthIsPrinted(es: seq<Entry>)
    ensures TotalLength(es) == |Printed(es)|
  {
    if es != [] {
      LengthIsPrinted(es[1..]);
    }
  }

  // ---- round trip ------------------------------------------------------------------------------

  predicate FreeOf(s: Text, chars: Text) {
    forall c <- chars :: c !in s
  }

  /** Free of the characters that the splitter or `c_str()` would trip over. */
  predicate Free(e: Entry) {
    FreeOf(e.key, [58, 13, 10, 0]) && FreeOf(e.value, [13, 10])
  }

  /** The fields that survive: free, and with a non-empty key. */
  predicate Clean(e: Entry) {
    Free(e) && e.key != []
  }

  lemma FindAcross(a: Text, b: Text, chars: Text)
    requires FreeOf(a, chars) && b != [] && b[0] in chars
    ensures FindFirstOf(a + b, chars) == |a|
  {
    assert forall j :: 0 <= j < |a| ==> (a + b)[j] == a[j] && a[j] !in chars;
    assert (a + b)[|a|] == b[0];
  }

  lemma CrlfIsFirst(a: Text, b: Text)
    requires FreeOf(a, CRLF)
    ensures FindFirstOf(a + CRLF + b, CRLF) == |a|
  {
    assert a + CRLF + b == a + (CRLF + b);
    FindAcross(a, CRLF + b, CRLF);
  }

  lemma LineIsFree(e: Entry)
    requires Free(e)
    ensures FreeOf(Line(e), CRLF) && Line(e) != []
  {
    assert COLON !in CRLF;
    forall c | c in CRLF
      ensures c !in Line(e)
    {
      assert c in [COLON, CR, LF, 0];
    }
  }

  function Lines(es: seq<Entry>): seq<Text> {
    if es == [] then [] else [Line(es[0])] + Lines(es[1..])
  }

  /** Printed lines are cut back into exactly those lines. */
  lemma {:induction false} PiecesOfPrinted(es: seq<Entry>)
    requires forall e <- es :: Free(e)
    ensures Pieces(Printed(es), CRLF) == Some(Lines(es))
  {
    hide Line;
    if es != [] {
      var line, rest := Line(es[0]), Printed(es[1..]);
      LineIsFree(es[0]);
      CrlfIsFirst(line, rest);
      assert (line + CRLF + rest)[..|line|] == line;
      assert (line + CRLF + rest)[|line| + 2..] == rest;
      PiecesOfPrinted(es[1..]);
    }
  }

  lemma {:induction false} PrintedEnds(es: seq<Entry>)
    requires es != []
    ensures |Printed(es)| >= 3 && EndsWith(Printed(es), CRLF)
  {
    if |es| > 1 {
      PrintedEnds(es[1..]);
      var a, b := Line(es[0]) + CRLF, Printed(es[1..]);
      assert (a + b)[|a + b| - 2..] == b[|b| - 2..];
    } else {
      assert Printed(es[1..]) == [];
    }
  }

  lemma PutLine(e: Entry, res: map<Text, Text>)
    requires Free(e)
    ensures PutPiece(Line(e), [COLON], res) == Some(if e.key == [] then res else res[e.key := e.value])
  {
    assert FreeOf(e.key, [COLON]) by { assert COLON in [COLON, CR, LF, 0]; }
    assert Line(e) == e.key + ([COLON] + e.value);
    FindAcross(e.key, [COLON] + e.value, [COLON]);
    assert Line(e)[..|e.key|] == e.key;
    assert Line(e)[|e.key| + 1..] == e.value;
    CStringWhole(e.key);
    assert 0 in [COLON, CR, LF, 0];
  }

  function WithKeys(es: seq<Entry>): seq<Entry> {
    if es == [] then [] else (if es[0].key == [] then [] else [es[0]]) + WithKeys(es[1..])
  }

  /** Entries put into a map one after the other. */
  function PutAll(es: seq<Entry>, res: map<Text, Text>): map<Text, Text>
    decreases |es|
  {
    if es == [] then res else PutAll(es[1..], if es[0].key == [] then res else res[es[0].key := es[0].value])
  }

  lemma {:induction false} PutLines(es: seq<Entry>, res: map<Text, Text>)
    requires forall e <- es :: Free(e)
    ensures PutPieces(Lines(es), [COLON], res) == Some(PutAll(es, res))
    decreases |es|
  {
    hide Line, PutPiece;
    if es != [] {
      PutLine(es[0], res);
      PutLines(es[1..], if es[0].key == [] then res else res[es[0].key := es[0].value]);
    }
  }

  /** With distinct keys, putting one after the other gives the map of the entries that have a key. */
  lemma {:induction false} PutAllHolds(es: seq<Entry>, res: map<Text, Text>, k: Text)
    requires DistinctKeys(es)
    ensures k in PutAll(es, res) <==> k in res || exists i :: 0 <= i < |es| && es[i].key == k && k != []
    ensures forall i :: 0 <= i < |es| && es[i].key == k && k != [] ==> PutAll(es, res)[k] == es[i].value
    ensures k in res && (k == [] || forall i :: 0 <= i < |es| ==> es[i].key != k) ==> PutAll(es, res)[k] == res[k]
    decreases |es|
  {
    if es != [] {
      var next := if es[0].key == [] then res else res[es[0].key := es[0].value];
      PutAllHolds(es[1..], next, k);
      forall i | 0 <= i < |es| && es[i].key == k && k != []
        ensures PutAll(es, res)[k] == es[i].value
      {
        if i > 0 {
          assert es[1..][i - 1] == es[i];
        } else {
          assert forall j :: 0 <= j < |es[1..]| ==> es[1..][j] == es[j + 1];
        }
      }
      if i :| 0 <= i < |es| && es[i].key == k && k != [] {
        assert i > 0 ==> es[1..][i - 1] == es[i];
      }
      if i :| 0 <= i < |es[1..]| && es[1..][i].key == k {
        assert es[i + 1].key == k;
      }
    }
  }

  lemma {:induction false} MapOfHolds(es: seq<Entry>, k: Text)
    requires DistinctKeys(es)
    ensures k in MapOf(es) <==> exists i :: 0 <= i < |es| && es[i].key == k
    ensures forall i :: 0 <= i < |es| && es[i].key == k ==> MapOf(es)[k] == es[i].value
  {
    if es != [] {
      MapOfHolds(es[..|es| - 1], k);
    }
  }

  /** For free entries the round trip loses exactly the entry with the empty key, if there is one. */
  lemma FreeRoundTrip(es: seq<Entry>)
    requires DistinctKeys(es) && forall e <- es :: Free(e)
    ensures SplitToMap(Printed(es), CRLF, [COLON], map[]) == Some(MapOf(es) - {[]})
  {
    if es == [] {
      assert MapOf(es) - {[]} == map[];
    } else {
      hide Lines, Printed, Pieces, PutPieces, MapOf, PutAll;
      PrintedEnds(es);
      PiecesOfPrinted(es);
      PutLines(es, map[]);
      PutAllIsMap(es);
    }
  }

  lemma PutAllIsMap(es: seq<Entry>)
    requires DistinctKeys(es)
    ensures PutAll(es, map[]) == MapOf(es) - {[]}
  {
    hide MapOf, PutAll, DistinctKeys;
    var left, right := PutAll(es, map[]), MapOf(es) - {[]};
    forall k: Text
      ensures k in left <==> k in right
      ensures k in left ==> left[k] == right[k]
    {
      PutAllHolds(es, map[], k);
      MapOfHolds(es, k);
    }
  }

  // ---- the other direction: only free fields can come out ------------------------------------------

  lemma {:induction false} PiecesAreFree(tmp: Text, split: Text)
    requires split != [] && Pieces(tmp, split).Some?
    ensures forall x <- Pieces(tmp, split).value :: FreeOf(x, split)
    decreases |tmp|
  {
    var i := FindFirstOf(tmp, split);
    if i < |tmp| {
      PiecesAreFree(tmp[i + |split|..], split);
      assert FreeOf(tmp[..i], split);
    }
  }

  ghost predicate AllFree(m: map<Text, Text>) {
    forall k :: k in m ==> Free(Entry(k, m[k]))
  }

  lemma PutPieceIsFree(piece: Text, res: map<Text, Text>)
    requires FreeOf(piece, CRLF) && AllFree(res)
    ensures PutPiece(piece, [COLON], res).Some? && AllFree(PutPiece(piece, [COLON], res).value)
  {
    var j := FindFirstOf(piece, [COLON]);
    if 0 < j < |piece| {
      var k, v := CString(piece[..j]), piece[j + 1..];
      assert CR in CRLF && LF in CRLF;
      assert forall c :: c in k ==> c in piece[..j];
      assert FreeOf(k, [COLON, CR, LF, 0]);
      assert FreeOf(v, CRLF);
    }
  }

  lemma {:induction false} PutPiecesIsFree(pieces: seq<Text>, res: map<Text, Text>)
    requires (forall x <- pieces :: FreeOf(x, CRLF)) && AllFree(res)
    ensures PutPieces(pieces, [COLON], res).Some? && AllFree(PutPieces(pieces, [COLON], res).value)
    decreases |pieces|
  {
    hide FreeOf, AllFree, PutPiece;
    if pieces != [] {
      PutPieceIsFree(pieces[0], res);
      PutPiecesIsFree(pieces[1..], PutPiece(pieces[0], [COLON], res).value);
    }
  }

  lemma ResultIsFree(str: Text)
    ensures var m := SplitToMap(str, CRLF, [COLON], map[]); m.Some? ==> AllFree(m.value)
  {
    hide FreeOf, AllFree, PutPieces, Pieces;
    EmptyIsFree();
    var v := SplitToVector(str, CRLF);
    if str != [] && v.Some? {
      PiecesAreFree(if EndsWith(str, CRLF) then str else str + CRLF, CRLF);
      PutPiecesIsFree(v.value, map[]);
    }
  }

  lemma EmptyIsFree()
    ensures AllFree(map[])
  {
  }

  /** Printing and splitting gives the header back exactly when every field is clean. */
  lemma RoundTrip(es: seq<Entry>)
    requires DistinctKeys(es)
    ensures SplitToMap(Printed(es), CRLF, [COLON], map[]) == Some(MapOf(es)) <==> forall e <- es :: Clean(e)
  {
    hide SplitToMap, Printed, FreeOf;
    if SplitToMap(Printed(es), CRLF, [COLON], map[]) == Some(MapOf(es)) {
      ResultIsFree(Printed(es));
      forall i | 0 <= i < |es|
        ensures Free(es[i])
      {
        MapOfHolds(es, es[i].key);
      }
    }
    if forall e <- es :: Free(e) {
      FreeRoundTrip(es);
      MapOfHolds(es, []);
      if forall e <- es :: Clean(e) {
        assert forall i :: 0 <= i < |es| ==> Clean(es[i]);
        assert MapOf(es) - {[]} == MapOf(es);
      }
    }
  }

  // ---- splitting undoes joining ---------------------------------------------------------------

  /** Pieces with the separator between them, none behind the last. */
  function Joined(pieces: seq<Text>, split: Text): Text {
    if pieces == [] then []
    else if |pieces| == 1 then pieces[0]
    else pieces[0] + split + Joined(pieces[1..], split)
  }

  /** What the splitter can tell apart: no piece is empty or holds a character of the separator. */
  predicate Plain(pieces: seq<Text>, split: Text) {
    forall x <- pieces :: x != [] && FreeOf(x, split)
  }

  lemma {:induction false} PiecesOfJoined(pieces: seq<Text>, split: Text)
    requires split != [] && pieces != [] && Plain(pieces, split)
    ensures Pieces(Joined(pieces, split) + split, split) == Some(pieces)
    decreases |pieces|
  {
    hide FreeOf, Joined, Pieces;
    var x, rest := pieces[0], if |pieces| == 1 then [] else Joined(pieces[1..], split) + split;
    assert x in pieces;
    JoinedHead(pieces, split);
    FirstPiece(x, split, rest);
    if |pieces| > 1 {
      assert forall y <- pieces[1..] :: y in pieces;
      PiecesOfJoined(pieces[1..], split);
      assert pieces == [x] + pieces[1..];
    } else {
      NoPieces(split);
      assert pieces == [x] + [];
    }
  }

  /** One cut: the first piece, then the pieces of what is behind the separator. */
  lemma FirstPiece(x: Text, split: Text, rest: Text)
    requires split != [] && x != [] && FreeOf(x, split)
    ensures Pieces(x + split + rest, split) == Behind([x], Pieces(rest, split))
  {
    hide FreeOf, Behind;
    assert split[0] in split;
    var tmp := x + split + rest;
    assert tmp == x + (split + rest);
    FindAcross(x, split + rest, split);
    assert tmp[..|x|] == x && tmp[|x| + |split|..] == rest;
  }

  lemma NoPieces(split: Text)
    requires split != []
    ensures Pieces([], split) == Some([])
  {
  }

  lemma JoinedHead(pieces: seq<Text>, split: Text)
    requires pieces != []
    ensures Joined(pieces, split) + split
         == pieces[0] + split + if |pieces| == 1 then [] else Joined(pieces[1..], split) + split
  {
  }

  lemma {:induction false} JoinedEndsPlainly(pieces: seq<Text>, split: Text)
    requires split != [] && pieces != [] && Plain(pieces, split)
    ensures Joined(pieces, split) != []
    ensures var j := Joined(pieces, split); j[|j| - 1] !in split
    decreases |pieces|
  {
    if |pieces| == 1 {
      assert pieces[0] in pieces && pieces[0][|pieces[0]| - 1] in pieces[0];
    } else {
      assert forall x <- pieces[1..] :: x in pieces;
      JoinedEndsPlainly(pieces[1..], split);
    }
  }

  /**
   A text that does not end in the separator is split into all its pieces, the last included: splitting
   gives back exactly what was joined, if the text is no shorter than the separator; otherwise it throws.
   */
  lemma SplitsWhatWasJoined(pieces: seq<Text>, split: Text)
    requires split != [] && pieces != [] && Plain(pieces, split)
    ensures SplitToVector(Joined(pieces, split), split)
         == if |Joined(pieces, split)| < |split| then None else Some(pieces)
  {
    hide Joined, Pieces, Plain;
    var j := Joined(pieces, split);
    JoinedEndsPlainly(pieces, split);
    PiecesOfJoined(pieces, split);
    assert split[|split| - 1] in split;
    if |j| >= |split| {
      assert j[|j| - |split|..][|split| - 1] == j[|j| - 1];
    }
  }

  // ---- the methods -----------------------------------------------------------------------------

  lemma BehindBehind(res: seq<Text>, more: seq<Text>, pieces: Option<seq<Text>>)
    ensures Behind(res, Behind(more, pieces)) == Behind(res + more, pieces)
  {
    if pieces.Some? {
      assert res + (more + pieces.value) == (res + more) + pieces.value;
    }
  }

  /** One turn of the splitting loop. */
  lemma PiecesOnce(tmp: Text, split: Text, i: nat)
    requires split != [] && i == FindFirstOf(tmp, split)
    ensures Pieces(tmp, split)
         == if i == |tmp| then Some([])
            else if i + |split| > |tmp| then None
            else Behind(if i == 0 then [] else [tmp[..i]], Pieces(tmp[i + |split|..], split))
  {
  }

  /** Append the pieces of `str` to `res`; `ok` is false when `substr` throws. */
  method SplitStrToVector(str: Text, split: Text, res: seq<Text>) returns (ok: bool, res': seq<Text>)
    ensures ok <==> SplitToVector(str, split).Some?
    ensures ok ==> res' == res + SplitToVector(str, split).value
  {
    res' := res;
    if str == [] || split == [] {
      return true, res';
    }
    if |str| < |split| {
      return false, res';
    }
    var tmp := str;
    if tmp[|tmp| - |split|..] != split {
      tmp := tmp + split;
    }
    hide Pieces, FindFirstOf;
    ghost var start := tmp;
    while true
      invariant Behind(res', Pieces(tmp, split)) == Behind(res, Pieces(start, split))
      decreases |tmp|
    {
      var i := FindFirstOf(tmp, split);
      PiecesOnce(tmp, split, i);
      if i == |tmp| {
        assert res' + [] == res';
        return true, res';
      }
      var x := tmp[..i];
      if i + |split| > |tmp| {
        return false, res';
      }
      tmp := tmp[i + |split|..];
      BehindBehind(res', if i == 0 then [] else [x], Pieces(tmp, split));
      if x != [] {
        res' := res' + [x];
      } else {
        assert res' + [] == res';
      }
    }
  }

  /** Put the pieces that have a joiner, not first, into `res`; the key ends at its first NUL. */
  method SplitStrToMap(str: Text, split: Text, joiner: Text, res: map<Text, Text>)
    returns (ok: bool, res': map<Text, Text>)
    ensures ok <==> SplitToMap(str, split, joiner, res).Some?
    ensures ok ==> res' == SplitToMap(str, split, joiner, res).value
  {
    res' := res;
    if str == [] || split == [] || joiner == [] {
      return true, res';
    }
    var vec;
    ok, vec := SplitStrToVector(str, split, []);
    if !ok {
      return false, res';
    }
    assert vec == SplitToVector(str, split).value;
    assert vec[0..] == vec;
    hide SplitToVector, PutPiece;
    for n := 0 to |vec|
      invariant PutPieces(vec, joiner, res) == PutPieces(vec[n..], joiner, res')
    {
      assert vec[n..][0] == vec[n] && vec[n..][1..] == vec[n + 1..];
      ok, res' := PutInto(vec[n], joiner, res');
      if !ok {
        return false, res';
      }
    }
    return true, res';
  }

  /** The body of the loop of `SplitStrToMap`. */
  method PutInto(i: Text, joiner: Text, res: map<Text, Text>) returns (ok: bool, res': map<Text, Text>)
    ensures ok <==> PutPiece(i, joiner, res).Some?
    ensures ok ==> res' == PutPiece(i, joiner, res).value
  {
    res' := res;
    if i != [] {
      var j := FindFirstOf(i, joiner);
      if j != |i| && j != 0 {
        var key := i[..j];
        if j + |joiner| > |i| {
          return false, res';
        }
        var value := i[j + |joiner|..];
        res' := res'[CString(key) := value];
      }
    }
    return true, res';
  }

  /** `ToHttpString`: one line for each entry. */
  method ToHttpString(es: seq<Entry>) returns (s: Text)
    ensures s == Printed(es)
  {
    s := [];
    assert es[0..] == es;
    for i := 0 to |es|
      invariant Printed(es) == s + Printed(es[i..])
    {
      assert es[i..][0] == es[i] && es[i..][1..] == es[i + 1..];
      s := s + es[i].key + [COLON] + es[i].value + CRLF;
    }
  }

  method GetHeaderTotalLength(es: seq<Entry>) returns (sum: nat)
    ensures sum == |Printed(es)|
  {
    sum := 0;
    assert es[0..] == es;
    for i := 0 to |es|
      invariant TotalLength(es) == sum + TotalLength(es[i..])
    {
      assert es[i..][0] == es[i] && es[i..][1..] == es[i + 1..];
      sum := sum + |es[i].key| + 1 + |es[i].value| + 2;
    }
    LengthIsPrinted(es);
  }
}
