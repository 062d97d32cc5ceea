/**
 * The values every part of the byte-pair-encoding pipeline shares: bytes, symbols
 * (Python `bytes` objects), pretokens as tuples of symbols, merge rules, the UTF-8
 * encoding of text, and the two dictionary builders both tokenizers use.
 */
module Symbols {
  import opened Results

  /** One octet of a Python `bytes` object. */
  type Byte = b: int | 0 <= b < 256

  /** A vocabulary symbol: a byte string, a single byte or the product of merges. */
  type Token = seq<Byte>

  /** A pretoken as the tuple of symbols it currently consists of. */
  type Word = seq<Token>

  /** A merge rule (A, B): the two adjacent symbols it joins into A + B. */
  type Pair = (Token, Token)

  /** The KeyError of a failed dictionary lookup: a symbol with no id, or an id with no symbol. */
  datatype Error = MissingToken(token: Token) | MissingId(id: int)

  /** b"".join(w): the bytes a sequence of symbols stands for. */
  function Flatten(w: seq<Token>): seq<Byte>
  {
    if w == [] then [] else w[0] + Flatten(w[1..])
  }

  lemma {:induction false} FlattenAppend(a: seq<Token>, b: seq<Token>)
    ensures Flatten(a + b) == Flatten(a) + Flatten(b)
  {
    if a == [] {
      assert a + b == b;
    } else {
      assert (a + b)[1..] == a[1..] + b;
      FlattenAppend(a[1..], b);
    }
  }

  /** Joining the adjacent symbols at i and i + 1 into one leaves the bytes unchanged. */
  lemma {:induction false} FlattenJoin(w: seq<Token>, i: nat)
    requires i + 1 < |w|
    ensures Flatten(w[..i] + [w[i] + w[i + 1]] + w[i + 2..]) == Flatten(w)
  {
    var pre, post := w[..i], w[i + 2..];
    var joined := [w[i] + w[i + 1]] + post;
    var split := [w[i], w[i + 1]] + post;
    calc {
      Flatten(w[..i] + [w[i] + w[i + 1]] + w[i + 2..]);
      { assert w[..i] + [w[i] + w[i + 1]] + w[i + 2..] == pre + joined; }
      Flatten(pre + joined);
      { FlattenAppend(pre, joined); }
      Flatten(pre) + Flatten(joined);
      { assert joined[1..] == post; }
      Flatten(pre) + ((w[i] + w[i + 1]) + Flatten(post));
      { assert split[1..][1..] == post; }
      Flatten(pre) + Flatten(split);
      { FlattenAppend(pre, split); }
      Flatten(pre + split);
      { assert w == pre + split; }
      Flatten(w);
    }
  }

  /** [bytes([b]) for b in bs]: one single-byte symbol per byte, in order. */
  function SingleBytes(bs: seq<Byte>): (r: Word)
    ensures |r| == |bs|
    ensures forall i :: 0 <= i < |r| ==> r[i] == [bs[i]]
  {
    seq(|bs|, i requires 0 <= i < |bs| => [bs[i]])
  }

  /** Concatenating the single-byte symbols of bs gives back bs. */
  lemma {:induction false} FlattenSingleBytes(bs: seq<Byte>)
    ensures Flatten(SingleBytes(bs)) == bs
  {
    if bs != [] {
      assert SingleBytes(bs)[1..] == SingleBytes(bs[1..]);
      FlattenSingleBytes(bs[1..]);
    }
  }

  /** The UTF-8 encoding of one Unicode scalar value (RFC 3629, section 3). */
  function Utf8Char(c: char): (r: seq<Byte>)
    ensures 1 <= |r| <= 4
    ensures |r| == 1 <==> c as int < 0x80
  {
    var cp := c as int;
    if cp < 0x80 then [cp]
    else if cp < 0x800 then [0xC0 + cp / 0x40, 0x80 + cp % 0x40]
    else if cp < 0x1_0000 then [0xE0 + cp / 0x1000, 0x80 + (cp / 0x40) % 0x40, 0x80 + cp % 0x40]
    else [0xF0 + cp / 0x4_0000, 0x80 + (cp / 0x1000) % 0x40, 0x80 + (cp / 0x40) % 0x40, 0x80 + cp % 0x40]
  }

  /** text.encode("utf-8") */
  function Utf8(s: string): seq<Byte>
  {
    if s == [] then [] else Utf8Char(s[0]) + Utf8(s[1..])
  }

  lemma {:induction false} Utf8Append(s: string, t: string)
    ensures Utf8(s + t) == Utf8(s) + Utf8(t)
  {
    if s == [] {
      assert s + t == t;
    } else {
      assert (s + t)[1..] == s[1..] + t;
      Utf8Append(s[1..], t);
    }
  }

  /**
   * [m[t] for t in toks]: every symbol mapped through m in order, or the KeyError
   * of the first symbol m has no entry for.
   */
  function LookupAll(m: map<Token, int>, toks: seq<Token>): (r: Result<seq<int>, Error>)
    ensures r.Ok? <==> forall i :: 0 <= i < |toks| ==> toks[i] in m
    ensures r.Ok? ==> |r.value| == |toks| && forall i :: 0 <= i < |toks| ==> r.value[i] == m[toks[i]]
    ensures r.Err? ==> exists i :: 0 <= i < |toks| && toks[i] !in m && r.error == MissingToken(toks[i])
                                 && forall j :: 0 <= j < i ==> toks[j] in m
  {
    if toks == [] then Ok([])
    else if toks[0] !in m then Err(MissingToken(toks[0]))
    else
      match LookupAll(m, toks[1..])
      case Ok(ids) => Ok([m[toks[0]]] + ids)
      case Err(e) => Err(e)
  }

  /**
   * {pair: i for i, pair in enumerate(merges)}: every merge rule keyed to its position;
   * when a rule occurs twice the later position overwrites the earlier one.
   */
  function Ranks(merges: seq<Pair>): (r: map<Pair, nat>)
    ensures forall p :: p in r <==> p in merges
    ensures forall p :: p in r ==> r[p] < |merges| && merges[r[p]] == p
    ensures forall p, j :: p in r && r[p] < j < |merges| ==> merges[j] != p
  {
    if merges == [] then map[]
    else
      var n := |merges| - 1;
      var prev := Ranks(merges[..n]);
      assert forall p :: p in merges <==> p in merges[..n] || p == merges[n] by {
        assert merges == merges[..n] + [merges[n]];
      }
      prev[merges[n] := n]
  }

  /** With distinct merge rules, every rule is keyed to exactly its own position. */
  lemma RanksOfDistinct(merges: seq<Pair>)
    requires forall i, j :: 0 <= i < j < |merges| ==> merges[i] != merges[j]
    ensures forall i :: 0 <= i < |merges| ==> Ranks(merges)[merges[i]] == i
  {
  }

  /** zip(s[:-1], s[1:]): each element paired with the one after it, left to right. */
  function Adjacent<T>(s: seq<T>): (r: seq<(T, T)>)
    ensures |r| == if s == [] then 0 else |s| - 1
    ensures forall i :: 0 <= i < |r| ==> r[i] == (s[i], s[i + 1])
  {
    if |s| <= 1 then [] else seq(|s| - 1, i requires 0 <= i < |s| - 1 => (s[i], s[i + 1]))
  }
}
