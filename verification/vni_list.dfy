/**
 * The `vni_list` option of a VXLAN tunnel interface, as edited by
 * src/cli/tunnel/tunnel_vty.c: a string of VNIs separated by spaces
 * ("50 60 70"), read token by token with `strtok(…, " ")`.
 */
module VniList {
  import opened Common

  /** A `strtok` token: non-empty, without the delimiter. */
  predicate IsToken(t: string) {
    |t| > 0 && ' ' !in t
  }

  predicate AllTokens(ts: seq<string>) {
    forall i :: 0 <= i < |ts| ==> IsToken(ts[i])
  }

  /** The index of the first space in `s`, or `|s|` when there is none. */
  function TokenEnd(s: string): (k: nat)
    ensures k <= |s|
    ensures ' ' !in s[..k]
    ensures k < |s| ==> s[k] == ' '
  {
    if |s| == 0 || s[0] == ' ' then 0
    else
      var k := 1 + TokenEnd(s[1..]);
      assert s[..k] == [s[0]] + s[1..][..k - 1];
      k
  }

  /** What successive `strtok(…, " ")` calls return: the maximal runs of non-spaces, in order. */
  function Tokens(s: string): (ts: seq<string>)
    ensures AllTokens(ts)
    decreases |s|
  {
    if |s| == 0 then []
    else if s[0] == ' ' then Tokens(s[1..])
    else
      var k := TokenEnd(s);
      [s[..k]] + Tokens(s[k..])
  }

  /** The tokens written back with single spaces between them. */
  function Join(ts: seq<string>): string {
    if |ts| == 0 then ""
    else if |ts| == 1 then ts[0]
    else ts[0] + " " + Join(ts[1..])
  }

  /** `ts` without any token equal to `vni`, order kept. */
  function Filter(ts: seq<string>, vni: string): (r: seq<string>)
    ensures vni !in r
    ensures forall t :: t in r <==> t in ts && t != vni
    ensures |r| <= |ts|
  {
    if |ts| == 0 then []
    else if ts[0] == vni then Filter(ts[1..], vni)
    else [ts[0]] + Filter(ts[1..], vni)
  }

  /** Appending a token to a non-empty list adds one separator. */
  lemma {:induction false} JoinSnoc(ts: seq<string>, t: string)
    requires |ts| > 0
    ensures Join(ts + [t]) == Join(ts) + " " + t
    decreases |ts|
  {
    if |ts| == 1 {
      assert ts + [t] == [ts[0], t];
      assert [ts[0], t][1..] == [t];
    } else {
      assert (ts + [t])[1..] == ts[1..] + [t];
      JoinSnoc(ts[1..], t);
    }
  }

  lemma {:induction false} TokenEndOf(t: string, tail: string)
    requires IsToken(t)
    requires |tail| == 0 || tail[0] == ' '
    ensures TokenEnd(t + tail) == |t|
    decreases |t|
  {
    var s := t + tail;
    assert s[0] == t[0] && t[0] in t;
    assert TokenEnd(s) == 1 + TokenEnd(s[1..]);
    if |t| > 1 {
      assert s[1..] == t[1..] + tail;
      assert ' ' !in t[1..] by {
        forall i | 0 <= i < |t[1..]| ensures t[1..][i] != ' ' {
          assert t[1..][i] == t[i + 1] && t[i + 1] in t;
        }
      }
      TokenEndOf(t[1..], tail);
    } else {
      assert s[1..] == tail;
    }
  }

  /** Round trip: splitting a joined list of tokens gives the tokens back. */
  lemma {:induction false} TokensOfJoin(ts: seq<string>)
    requires AllTokens(ts)
    ensures Tokens(Join(ts)) == ts
    decreases |ts|
  {
    if |ts| == 1 {
      var t := ts[0];
      TokenEndOf(t, "");
      assert t + "" == t && t[..|t|] == t && t[|t|..] == "";
    } else if |ts| > 1 {
      var t, tail := ts[0], " " + Join(ts[1..]);
      var s := t + tail;
      assert Join(ts) == s;
      TokenEndOf(t, tail);
      assert s[..|t|] == t && s[|t|..] == tail;
      assert tail[1..] == Join(ts[1..]);
      TokensOfJoin(ts[1..]);
      assert ts == [t] + ts[1..];
    }
  }

  /** Joining the tokens of any string is a normal form: splitting it again gives the same tokens. */
  lemma JoinNormalizes(s: string)
    ensures Tokens(Join(Tokens(s))) == Tokens(s)
  {
    TokensOfJoin(Tokens(s));
  }

  /** A joined non-empty list of tokens ends with a token character, never with the separator. */
  lemma {:induction false} JoinEndsWithToken(ts: seq<string>)
    requires AllTokens(ts) && |ts| > 0
    ensures |Join(ts)| > 0 && Join(ts)[|Join(ts)| - 1] != ' '
    decreases |ts|
  {
    if |ts| == 1 {
      assert ts[0][|ts[0]| - 1] in ts[0];
    } else {
      assert AllTokens(ts[1..]) by {
        forall i | 0 <= i < |ts[1..]| ensures IsToken(ts[1..][i]) {
          assert ts[1..][i] == ts[i + 1];
        }
      }
      JoinEndsWithToken(ts[1..]);
    }
  }

  /**
   * The list `add_vni_to_vni_list` returns: `vni` alone for a missing
   * list; the list unchanged when it has no token or already holds `vni`;
   * otherwise its tokens, single-spaced, followed by `vni`.
   */
  function VniAdded(cur: Option<string>, vni: string): string {
    if cur.None? then vni
    else
      var ts := Tokens(cur.value);
      if |ts| == 0 || vni in ts then cur.value else Join(ts) + " " + vni
  }

  /**
   * `add_vni_to_vni_list`: walks the tokens, copying them single-spaced,
   * and stops at the first one equal to `vni`, in which case the original
   * list is returned.
   */
  method AddVniToList(cur: Option<string>, vni: string) returns (r: string)
    ensures r == VniAdded(cur, vni)
  {
    if cur.None? {
      return vni;
    }
    var ts := Tokens(cur.value);
    if |ts| == 0 || ts[0] == vni {
      return cur.value;
    }
    var acc := ts[0];
    var found := false;
    var i := 1;
    assert ts[..1] == [ts[0]];
    while i < |ts| && !found
      invariant 1 <= i <= |ts|
      invariant found ==> vni in ts
      invariant !found ==> acc == Join(ts[..i]) && vni !in ts[..i]
      decreases |ts| - i, if found then 0 else 1
    {
      if ts[i] != vni {
        assert ts[..i + 1] == ts[..i] + [ts[i]];
        JoinSnoc(ts[..i], ts[i]);
        acc := acc + " " + ts[i];
        i := i + 1;
      } else {
        found := true;
      }
    }
    if found {
      return cur.value;
    }
    assert ts[..i] == ts;
    return acc + " " + vni;
  }

  /** Why `remove_vni_to_vni_list` has no defined result. */
  datatype VniListFault =
    | NullVniList        // the list is `NULL`: the result buffer is read before its start
    | NoFirstToken       // the list has no token: `strcmp` is handed `NULL`
    | EmptyResult        // the list is exactly `vni`: the empty result is read before its start

  /**
   * The list `remove_vni_to_vni_list` returns: when the first token is not
   * `vni`, every token except those equal to `vni`; when it is, every
   * later token, duplicates of `vni` included.
   */
  function VniRemoved(cur: Option<string>, vni: string): (r: Result<string, VniListFault>)
    ensures r.Err? <==> cur.None? || |Tokens(cur.value)| == 0 || Tokens(cur.value) == [vni]
  {
    if cur.None? then Err(NullVniList)
    else
      var ts := Tokens(cur.value);
      if |ts| == 0 then Err(NoFirstToken)
      else if ts[0] != vni then Ok(Join(Filter(ts, vni)))
      else if |ts| == 1 then Err(EmptyResult)
      else Ok(Join(ts[1..]))
  }

  /** A token followed by the separator, as the walk appends once the head matched. */
  function Trailing(ts: seq<string>): string {
    if |ts| == 0 then "" else ts[0] + " " + Trailing(ts[1..])
  }

  lemma {:induction false} TrailingSnoc(ts: seq<string>, t: string)
    ensures Trailing(ts + [t]) == Trailing(ts) + t + " "
    decreases |ts|
  {
    if |ts| == 0 {
      assert ([] + [t])[1..] == [];
    } else {
      assert (ts + [t])[1..] == ts[1..] + [t];
      TrailingSnoc(ts[1..], t);
    }
  }

  lemma {:induction false} TrailingIsJoin(ts: seq<string>)
    requires |ts| > 0
    ensures Trailing(ts) == Join(ts) + " "
    decreases |ts|
  {
    if |ts| > 1 {
      TrailingIsJoin(ts[1..]);
    }
  }

  lemma FilterSnoc(ts: seq<string>, t: string, vni: string)
    ensures Filter(ts + [t], vni) == Filter(ts, vni) + (if t == vni then [] else [t])
    decreases |ts|
  {
    if |ts| == 0 {
      assert ([] + [t])[1..] == [];
    } else {
      assert (ts + [t])[1..] == ts[1..] + [t];
      FilterSnoc(ts[1..], t, vni);
    }
  }

  /**
   * `remove_vni_to_vni_list`: copies the first token unless it is `vni`,
   * then walks the remaining tokens — skipping those equal to `vni` while
   * the head did not match, appending each followed by a space once it
   * did — and finally drops one trailing space.
   */
  method RemoveVniFromList(cur: Option<string>, vni: string) returns (r: Result<string, VniListFault>)
    ensures r == VniRemoved(cur, vni)
  {
    if cur.None? {
      return Err(NullVniList);
    }
    var ts := Tokens(cur.value);
    if |ts| == 0 {
      return Err(NoFirstToken);
    }
    var firstFound := ts[0] == vni;
    var acc := if firstFound then "" else ts[0];
    var i := 1;
    assert ts[..1] == [ts[0]];
    while i < |ts|
      invariant 1 <= i <= |ts|
      invariant firstFound ==> acc == Trailing(ts[1..i])
      invariant !firstFound ==> acc == Join(Filter(ts[..i], vni)) && |Filter(ts[..i], vni)| > 0
    {
      assert ts[..i + 1] == ts[..i] + [ts[i]];
      if !firstFound {
        FilterSnoc(ts[..i], ts[i], vni);
        if ts[i] != vni {
          var kept := Filter(ts[..i], vni);
          assert Filter(ts[..i + 1], vni) == kept + [ts[i]];
          JoinSnoc(kept, ts[i]);
          acc := acc + " " + ts[i];
          assert acc == Join(kept + [ts[i]]);
        } else {
          assert Filter(ts[..i + 1], vni) == Filter(ts[..i], vni) + [];
          assert Filter(ts[..i], vni) + [] == Filter(ts[..i], vni);
        }
      } else {
        assert ts[1..i + 1] == ts[1..i] + [ts[i]];
        TrailingSnoc(ts[1..i], ts[i]);
        acc := acc + ts[i] + " ";
      }
      i := i + 1;
    }
    assert ts[..i] == ts && ts[1..i] == ts[1..];
    if |acc| == 0 {
      return Err(EmptyResult);
    }
    if acc[|acc| - 1] == ' ' {
      if firstFound {
        TrailingIsJoin(ts[1..]);
      } else {
        FilterKeepsTokens(ts, vni);
        JoinEndsWithToken(Filter(ts, vni));
      }
      return Ok(acc[..|acc| - 1]);
    }
    if firstFound {
      TrailingIsJoin(ts[1..]);
    }
    return Ok(acc);
  }

  /**
   * Adding a VNI that is a token: afterwards the list holds it, and every
   * token it held before, in the same order.
   */
  lemma AddVniTokens(cur: string, vni: string)
    requires IsToken(vni) && |Tokens(cur)| > 0
    ensures var ts := Tokens(cur);
            Tokens(VniAdded(Some(cur), vni)) == if vni in ts then ts else ts + [vni]
  {
    var ts := Tokens(cur);
    if vni !in ts {
      JoinSnoc(ts, vni);
      TokensOfJoin(ts + [vni]);
    }
  }

  /** Adding the same VNI twice is adding it once. */
  lemma AddVniIdempotent(cur: Option<string>, vni: string)
    requires IsToken(vni)
    ensures VniAdded(Some(VniAdded(cur, vni)), vni) == VniAdded(cur, vni)
  {
    if cur.None? {
      TokensOfJoin([vni]);
    } else if |Tokens(cur.value)| > 0 {
      AddVniTokens(cur.value, vni);
    }
  }

  /**
   * The tokens of the list `remove_vni_to_vni_list` returns: all but the
   * VNI's occurrences when the head is another VNI, only the head dropped
   * when the head is the VNI.
   */
  lemma RemoveVniTokens(cur: string, vni: string)
    requires VniRemoved(Some(cur), vni).Ok?
    ensures var ts := Tokens(cur);
            Tokens(VniRemoved(Some(cur), vni).value) == if ts[0] != vni then Filter(ts, vni) else ts[1..]
  {
    var ts := Tokens(cur);
    if ts[0] != vni {
      FilterKeepsTokens(ts, vni);
      TokensOfJoin(Filter(ts, vni));
    } else {
      TokensOfJoin(ts[1..]);
    }
  }

  /** A defined result of the removal is never empty and never ends with a space. */
  lemma RemoveVniNoTrailingSpace(cur: string, vni: string)
    requires VniRemoved(Some(cur), vni).Ok?
    ensures var r := VniRemoved(Some(cur), vni).value;
            |r| > 0 && r[|r| - 1] != ' '
  {
    var ts := Tokens(cur);
    if ts[0] != vni {
      FilterKeepsTokens(ts, vni);
      assert ts[0] in Filter(ts, vni);
      JoinEndsWithToken(Filter(ts, vni));
    } else {
      assert AllTokens(ts[1..]) by {
        forall i | 0 <= i < |ts[1..]| ensures IsToken(ts[1..][i]) {
          assert ts[1..][i] == ts[i + 1];
        }
      }
      JoinEndsWithToken(ts[1..]);
    }
  }

  /** Removing a VNI just added to a list that lacked it gives the list back, single-spaced. */
  lemma RemoveAfterAdd(cur: string, vni: string)
    requires IsToken(vni) && |Tokens(cur)| > 0 && vni !in Tokens(cur)
    ensures VniRemoved(Some(VniAdded(Some(cur), vni)), vni) == Ok(Join(Tokens(cur)))
  {
    var ts := Tokens(cur);
    var added := VniAdded(Some(cur), vni);
    assert added == Join(ts) + " " + vni;
    AddVniTokens(cur, vni);
    assert Tokens(added) == ts + [vni];
    assert (ts + [vni])[0] == ts[0] != vni by {
      assert ts[0] in ts;
    }
    FilterSnoc(ts, vni, vni);
    FilterAbsent(ts, vni);
    assert Filter(ts + [vni], vni) == ts + [];
    assert ts + [] == ts;
  }

  lemma FilterKeepsTokens(ts: seq<string>, vni: string)
    requires AllTokens(ts)
    ensures AllTokens(Filter(ts, vni))
  {
    forall i | 0 <= i < |Filter(ts, vni)| ensures IsToken(Filter(ts, vni)[i]) {
      var t := Filter(ts, vni)[i];
      assert t in ts;
    }
  }

  lemma FilterAbsent(ts: seq<string>, vni: string)
    requires vni !in ts
    ensures Filter(ts, vni) == ts
  {
    if |ts| > 0 {
      assert ts == [ts[0]] + ts[1..];
      FilterAbsent(ts[1..], vni);
    }
  }
}
