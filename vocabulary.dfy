/**
 * `rlcache/utils/vocabulary.py`: a dense two-way map between tokens and ids
 * `0 .. n-1`, with the reserved tokens `%PAD%` and `%UNK%`, and list helpers
 * that truncate or pad to a fixed length.  Slicing and indexing follow
 * Python: a negative bound counts from the end.
 */
module Vocab {
  import opened Prelude

  const Pad: string := "%PAD%"
  const Unk: string := "%UNK%"

  /** `xs[:n]`. */
  function SliceTo<T>(xs: seq<T>, n: int): (r: seq<T>)
    ensures n >= 0 ==> r == xs[..if n < |xs| then n else |xs|]
    ensures n < 0 ==> r == xs[..if |xs| + n > 0 then |xs| + n else 0]
  {
    if n >= 0 then xs[..if n < |xs| then n else |xs|]
    else xs[..if |xs| + n > 0 then |xs| + n else 0]
  }

  /** `[x] * n`: empty when `n` is not positive. */
  function Repeat<T>(x: T, n: int): (r: seq<T>)
    ensures |r| == if n > 0 then n else 0
    ensures forall j :: 0 <= j < |r| ==> r[j] == x
    decreases if n > 0 then n else 0
  {
    if n <= 0 then [] else [x] + Repeat(x, n - 1)
  }

  /** `if pad_to_size is not None and len(ids) != pad_to_size: ids += [padding_element] * (pad_to_size - len(ids))`. */
  function Padded(ids: seq<int>, padToSize: Option<int>, padding: int): (r: seq<int>)
    ensures padToSize.None? ==> r == ids
    ensures padToSize.Some? && |ids| <= padToSize.value ==>
              |r| == padToSize.value && r[..|ids|] == ids
              && forall j :: |ids| <= j < |r| ==> r[j] == padding
    ensures padToSize.Some? && |ids| > padToSize.value ==> r == ids
  {
    if padToSize.Some? && |ids| != padToSize.value then
      var r := ids + Repeat(padding, padToSize.value - |ids|);
      assert r[..|ids|] == ids;
      r
    else ids
  }

  /** Truncating to `n >= 0` and padding gives exactly `n` entries, the first `min(n, len)` of them kept. */
  lemma PaddedToSize(ids: seq<int>, tokens: seq<string>, n: int, padding: int)
    requires n >= 0 && |ids| == |SliceTo(tokens, n)|
    ensures |Padded(ids, Some(n), padding)| == n
    ensures Padded(ids, Some(n), padding)[..|ids|] == ids
    ensures |ids| == if n < |tokens| then n else |tokens|
  {
  }

  /** A negative size truncates from the end and pads nothing. */
  lemma NegativeSizeDropsFromEnd(ids: seq<int>, tokens: seq<string>, n: int, padding: int)
    requires n < 0 && |ids| == |SliceTo(tokens, n)|
    ensures Padded(ids, Some(n), padding) == ids
    ensures |ids| == if |tokens| + n > 0 then |tokens| + n else 0
  {
  }

  /**
   * The token list after adding each token of `ts` that is not yet listed, in
   * order: a token already present, or added earlier in `ts`, is skipped.
   */
  function AddAll(ids: seq<string>, ts: seq<string>): (r: seq<string>)
    ensures ids <= r
    ensures forall t :: t in r <==> t in ids || t in ts
    ensures |r| <= |ids| + |ts|
    decreases |ts|
  {
    if |ts| == 0 then ids
    else
      var p := AddAll(ids, ts[..|ts| - 1]);
      assert forall t :: t in ts <==> t in ts[..|ts| - 1] || t == ts[|ts| - 1];
      if ts[|ts| - 1] in p then p else p + [ts[|ts| - 1]]
  }

  /** Adding one more token of `ts` extends the list by it, or not at all when it is listed. */
  lemma AddAllStep(ids: seq<string>, ts: seq<string>, j: nat)
    requires j < |ts|
    ensures var p := AddAll(ids, ts[..j]);
            AddAll(ids, ts[..j + 1]) == if ts[j] in p then p else p + [ts[j]]
  {
    assert ts[..j + 1][..j] == ts[..j];
  }

  /** Fresh tokens, distinct among themselves, are appended exactly, in their order. */
  lemma {:induction false} AddAllFresh(ids: seq<string>, ts: seq<string>)
    requires forall t :: t in ts ==> t !in ids
    requires forall i, j :: 0 <= i < j < |ts| ==> ts[i] != ts[j]
    ensures AddAll(ids, ts) == ids + ts
    decreases |ts|
  {
    if |ts| > 0 {
      var front := ts[..|ts| - 1];
      AddAllFresh(ids, front);
      assert ts[|ts| - 1] !in front;
      assert ids + front + [ts[|ts| - 1]] == ids + ts;
    }
  }

  /** Adding the same tokens a second time changes nothing. */
  lemma {:induction false} AddAllIdempotent(ids: seq<string>, ts: seq<string>)
    ensures AddAll(AddAll(ids, ts), ts) == AddAll(ids, ts)
  {
    AddAllPresent(AddAll(ids, ts), ts);
  }

  /** Tokens that are all listed already add nothing. */
  lemma {:induction false} AddAllPresent(ids: seq<string>, ts: seq<string>)
    requires forall t :: t in ts ==> t in ids
    ensures AddAll(ids, ts) == ids
    decreases |ts|
  {
    if |ts| > 0 {
      AddAllPresent(ids, ts[..|ts| - 1]);
      assert ts[|ts| - 1] in ts;
    }
  }

  /** The two tables of a vocabulary are inverse to each other, with ids exactly `0 .. n-1`. */
  ghost predicate Inverse(ids: map<string, nat>, tokens: seq<string>)
  {
    && |ids| == |tokens|
    && (forall t :: t in ids ==> ids[t] < |tokens| && tokens[ids[t]] == t)
    && (forall i :: 0 <= i < |tokens| ==> tokens[i] in ids && ids[tokens[i]] == i)
  }

  /** When the token list only grows, every token keeps its id. */
  lemma GrowingKeepsIds(ids0: map<string, nat>, tokens0: seq<string>, ids1: map<string, nat>, tokens1: seq<string>)
    requires Inverse(ids0, tokens0) && Inverse(ids1, tokens1) && tokens0 <= tokens1
    ensures forall t :: t in ids0 ==> t in ids1 && ids1[t] == ids0[t]
  {
    forall t | t in ids0
      ensures t in ids1 && ids1[t] == ids0[t]
    {
      assert tokens1[ids0[t]] == tokens0[ids0[t]];
    }
  }

  /** The ids of the first `|raw|` tokens, extended by the next token's id, under a map that keeps the old ids. */
  lemma IdsExtend(ids0: map<string, nat>, ids1: map<string, nat>, kept: seq<string>, raw: seq<int>, id: nat)
    requires |raw| < |kept|
    requires forall k :: 0 <= k < |raw| ==> kept[k] in ids0 && raw[k] == ids0[kept[k]]
    requires forall t :: t in ids0 ==> t in ids1 && ids1[t] == ids0[t]
    requires kept[|raw|] in ids1 && ids1[kept[|raw|]] == id
    ensures forall k :: 0 <= k < |raw| + 1 ==> kept[k] in ids1 && (raw + [id])[k] == ids1[kept[k]]
  {
    forall k | 0 <= k < |raw| + 1
      ensures kept[k] in ids1 && (raw + [id])[k] == ids1[kept[k]]
    {
      if k < |raw| {
        assert (raw + [id])[k] == raw[k];
      }
    }
  }

  class Vocabulary {
    var tokenToId: map<string, nat>
    var idToToken: seq<string>

    /** The two tables are inverse to each other and the ids are exactly `0 .. n-1`. */
    ghost predicate Valid()
      reads this
    {
      Inverse(tokenToId, idToToken)
    }

    /** `Vocabulary(add_unk, add_pad)`: `%PAD%` first, then `%UNK%`, each when asked for. */
    constructor (addUnk: bool, addPad: bool)
      ensures Valid()
      ensures idToToken == (if addPad then [Pad] else []) + (if addUnk then [Unk] else [])
      ensures addPad ==> Pad in tokenToId && tokenToId[Pad] == 0
      ensures addUnk ==> Unk in tokenToId && tokenToId[Unk] == if addPad then 1 else 0
    {
      var ids: map<string, nat> := map[];
      var tokens: seq<string> := [];
      if addPad {
        ids := ids[Pad := |tokens|];
        tokens := tokens + [Pad];
      }
      if addUnk {
        ids := ids[Unk := |tokens|];
        tokens := tokens + [Unk];
      }
      tokenToId := ids;
      idToToken := tokens;
    }

    /** `add_or_get_id(token)`: an existing id, or the next one, for a token appended at the end. */
    method AddOrGetId(token: string) returns (id: nat)
      requires Valid()
      modifies this
      ensures Valid()
      ensures token in old(tokenToId) ==> id == old(tokenToId)[token] && unchanged(this)
      ensures token !in old(tokenToId) ==>
                id == |old(idToToken)| && idToToken == old(idToToken) + [token]
                && tokenToId == old(tokenToId)[token := id]
      ensures GetNameForId(id) == Ok(token)
    {
      if token in tokenToId {
        return tokenToId[token];
      }
      id := |idToToken|;
      forall t | t in tokenToId
        ensures tokenToId[t] != id
      {
      }
      tokenToId := tokenToId[token := id];
      idToToken := idToToken + [token];
    }

    /** In a valid vocabulary a token has an id exactly when it is listed. */
    lemma InTableIffListed(token: string)
      requires Valid()
      ensures token in tokenToId <==> token in idToToken
    {
      if token in tokenToId {
        assert idToToken[tokenToId[token]] == token;
      }
    }

    /** `is_unk(token)`: the token is not in the vocabulary. */
    function IsUnk(token: string): (r: bool)
      reads this
      ensures r <==> token !in tokenToId
    {
      token !in tokenToId
    }

    /** `get_id_or_unk(token)`: the token's id, else `%UNK%`'s, else `KeyError`; nothing is added. */
    function GetIdOrUnk(token: string): (r: Result<nat>)
      reads this
      ensures token in tokenToId ==> r == Ok(tokenToId[token])
      ensures token !in tokenToId && Unk in tokenToId ==> r == Ok(tokenToId[Unk])
      ensures token !in tokenToId && Unk !in tokenToId ==> r == Err(KeyError)
    {
      if token in tokenToId then Ok(tokenToId[token])
      else if Unk in tokenToId then Ok(tokenToId[Unk])
      else Err(KeyError)
    }

    /** `get_name_for_id(token_id)`: `id_to_token[token_id]`, counting a negative id from the end. */
    function GetNameForId(tokenId: int): (r: Result<string>)
      reads this
      ensures r.Err? <==> !(-|idToToken| <= tokenId < |idToToken|)
      ensures r.Err? ==> r.error == IndexError
      ensures 0 <= tokenId < |idToToken| ==> r == Ok(idToToken[tokenId])
      ensures -|idToToken| <= tokenId < 0 ==> r == Ok(idToToken[|idToToken| + tokenId])
    {
      if 0 <= tokenId < |idToToken| then Ok(idToToken[tokenId])
      else if -|idToToken| <= tokenId < 0 then Ok(idToToken[|idToToken| + tokenId])
      else Err(IndexError)
    }

    /** `__len__`: the number of distinct tokens. */
    function Len(): (r: nat)
      reads this
      ensures Valid() ==> r == |idToToken|
    {
      |tokenToId|
    }

    /** `is_equal_to(other)`: `null` stands for an argument that is not a `Vocabulary`. */
    function IsEqualTo(other: Vocabulary?): (r: bool)
      reads this, other
      ensures r <==> other != null && idToToken == other.idToToken
    {
      other != null && idToToken == other.idToToken
    }

    /** The ids of `tokens` for `get_id_or_unk_multiple`, or the first `KeyError`. */
    function IdsOrUnk(tokens: seq<string>): (r: Result<seq<int>>)
      reads this
      ensures r.Ok? ==> |r.value| == |tokens| && forall j :: 0 <= j < |tokens| ==>
                GetIdOrUnk(tokens[j]).Ok? && r.value[j] == GetIdOrUnk(tokens[j]).value
      ensures r.Err? <==> exists j :: 0 <= j < |tokens| && GetIdOrUnk(tokens[j]).Err?
      ensures r.Err? ==> r.error == KeyError
    {
      if |tokens| == 0 then Ok([])
      else match GetIdOrUnk(tokens[0])
        case Err(e) => Err(e)
        case Ok(id) =>
          match IdsOrUnk(tokens[1..])
          case Err(e) =>
            assert forall j :: 1 <= j < |tokens| ==> tokens[j] == tokens[1..][j - 1];
            Err(e)
          case Ok(rest) =>
            assert forall j :: 1 <= j < |tokens| ==> tokens[j] == tokens[1..][j - 1];
            Ok([id as int] + rest)
    }

    /** `get_id_or_unk_multiple(tokens, pad_to_size, padding_element)`: nothing is added. */
    function GetIdOrUnkMultiple(tokens: seq<string>, padToSize: Option<int>, padding: int): (r: Result<seq<int>>)
      reads this
      ensures var kept := if padToSize.Some? then SliceTo(tokens, padToSize.value) else tokens;
              && (r.Err? <==> IdsOrUnk(kept).Err?)
              && (r.Ok? ==> r.value == Padded(IdsOrUnk(kept).value, padToSize, padding))
    {
      var kept := if padToSize.Some? then SliceTo(tokens, padToSize.value) else tokens;
      match IdsOrUnk(kept)
      case Err(e) => Err(e)
      case Ok(ids) => Ok(Padded(ids, padToSize, padding))
    }

    /**
     * `get_id_or_add_multiple(tokens, pad_to_size, padding_element)`: adds the
     * kept tokens in order, then pads.  Earlier ids never change.
     */
    method GetIdOrAddMultiple(tokens: seq<string>, padToSize: Option<int>, padding: int) returns (ids: seq<int>)
      requires Valid()
      modifies this
      ensures Valid()
      ensures var kept := if padToSize.Some? then SliceTo(tokens, padToSize.value) else tokens;
              && idToToken == AddAll(old(idToToken), kept)
              && (forall t :: t in kept ==> t in tokenToId)
              && (forall t :: t in old(tokenToId) ==> t in tokenToId && tokenToId[t] == old(tokenToId)[t])
              && old(idToToken) <= idToToken
              && exists raw: seq<int> ::
                   && |raw| == |kept|
                   && (forall j :: 0 <= j < |kept| ==> raw[j] == tokenToId[kept[j]])
                   && ids == Padded(raw, padToSize, padding)
    {
      var kept := if padToSize.Some? then SliceTo(tokens, padToSize.value) else tokens;
      var raw: seq<int> := [];
      for j := 0 to |kept|
        invariant Valid()
        invariant |raw| == j
        invariant idToToken == AddAll(old(idToToken), kept[..j])
        invariant forall k :: 0 <= k < j ==> kept[k] in tokenToId && raw[k] == tokenToId[kept[k]]
      {
        ghost var before, beforeIds := idToToken, tokenToId;
        AddAllStep(old(idToToken), kept, j);
        InTableIffListed(kept[j]);
        var id := AddOrGetId(kept[j]);
        assert idToToken == if kept[j] in before then before else before + [kept[j]];
        GrowingKeepsIds(beforeIds, before, tokenToId, idToToken);
        assert kept[j] in tokenToId && tokenToId[kept[j]] == id by {
          assert idToToken[id] == kept[j];
        }
        IdsExtend(beforeIds, tokenToId, kept, raw, id);
        raw := raw + [id];
      }
      assert kept[..|kept|] == kept;
      GrowingKeepsIds(old(tokenToId), old(idToToken), tokenToId, idToToken);
      ids := Padded(raw, padToSize, padding);
    }
  }

  /** Round trip: the name of a token's id is the token. */
  lemma NameOfId(v: Vocabulary, token: string)
    requires v.Valid() && token in v.tokenToId
    ensures v.GetNameForId(v.tokenToId[token]) == Ok(token)
  {
  }

  /** Every id below the size names a token whose id it is: the ids are dense. */
  lemma IdsAreDense(v: Vocabulary, id: nat)
    requires v.Valid() && id < v.Len()
    ensures v.GetNameForId(id).Ok? && v.tokenToId[v.GetNameForId(id).value] == id
  {
  }

  /** In the default vocabulary an unknown token reads as `%UNK%`, whose id is 1. */
  method UnknownReadsAsUnk(token: string) returns (id: Result<nat>)
    requires token != Pad && token != Unk
    ensures id == Ok(1)
  {
    var v := new Vocabulary(true, true);
    id := v.GetIdOrUnk(token);
  }
}
