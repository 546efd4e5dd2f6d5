/**
 `RandomID` of test/module/microservice.go: an identifier of `n` letters,
 each drawn from the lower-case alphabet by a random index. The random index
 is an arbitrary choice in range; its distribution is not modelled.
 */
module RandomId {
  import opened Optional

  /** The alphabet the letters are drawn from. */
  const LetterRunes: string := "abcdefghijklmnopqrstuvwxyz"

  predicate IsLetter(c: char)
  {
    'a' <= c <= 'z'
  }

  /** The letter at index `j` of the alphabet is the `j`-th after 'a'. */
  lemma LetterRunesInOrder(j: nat)
    requires j < |LetterRunes|
    ensures LetterRunes[j] as int == 'a' as int + j
  {
  }

  /** The identifier built from a sequence of alphabet indices. */
  function Letters(picks: seq<nat>): (id: string)
    requires forall j :: 0 <= j < |picks| ==> picks[j] < |LetterRunes|
    ensures |id| == |picks|
    ensures forall j :: 0 <= j < |id| ==> IsLetter(id[j])
  {
    if picks == [] then []
    else
      var last := picks[|picks| - 1];
      LetterRunesInOrder(last);
      Letters(picks[..|picks| - 1]) + [LetterRunes[last]]
  }

  /** The alphabet indices an identifier of letters was built from. */
  function Picks(id: string): (picks: seq<nat>)
    requires forall j :: 0 <= j < |id| ==> IsLetter(id[j])
    ensures |picks| == |id|
    ensures forall j :: 0 <= j < |picks| ==> picks[j] < |LetterRunes|
  {
    if id == [] then []
    else
      var c := id[|id| - 1];
      assert IsLetter(c) && |LetterRunes| == 26;
      Picks(id[..|id| - 1]) + [(c as int - 'a' as int) as nat]
  }

  /** Every identifier of letters is built by some choice of indices. */
  lemma {:induction false} LettersOfPicks(id: string)
    requires forall j :: 0 <= j < |id| ==> IsLetter(id[j])
    ensures Letters(Picks(id)) == id
  {
    if id != [] {
      var p := Picks(id);
      assert p[..|p| - 1] == Picks(id[..|id| - 1]);
      LettersOfPicks(id[..|id| - 1]);
      LetterRunesInOrder(p[|p| - 1]);
      assert id[..|id| - 1] + [id[|id| - 1]] == id;
    }
  }

  /** Different choices of indices build different identifiers. */
  lemma {:induction false} PicksOfLetters(picks: seq<nat>)
    requires forall j :: 0 <= j < |picks| ==> picks[j] < |LetterRunes|
    ensures Picks(Letters(picks)) == picks
  {
    if picks != [] {
      var id := Letters(picks);
      assert id[..|id| - 1] == Letters(picks[..|picks| - 1]);
      PicksOfLetters(picks[..|picks| - 1]);
      LetterRunesInOrder(picks[|picks| - 1]);
      assert picks[..|picks| - 1] + [picks[|picks| - 1]] == picks;
    }
  }

  /** `RandomID(n)`: `None` stands for the panic of `make` on a negative
      length; `picks` are the random indices drawn, one per letter. */
  method RandomID(n: int) returns (id: Option<string>, ghost picks: seq<nat>)
    ensures id.None? <==> n < 0
    ensures id.Some? ==> |id.value| == n && forall j :: 0 <= j < n ==> IsLetter(id.value[j])
    ensures id.Some? ==>
      && (forall j :: 0 <= j < |picks| ==> picks[j] < |LetterRunes|)
      && id.value == Letters(picks)
  {
    picks := [];
    if n < 0 {
      return None, picks;
    }
    var b: string := [];
    while |b| < n
      invariant |b| <= n
      invariant forall j :: 0 <= j < |picks| ==> picks[j] < |LetterRunes|
      invariant b == Letters(picks)
    {
      var pick :| 0 <= pick < |LetterRunes|;
      assert (picks + [pick])[..|picks|] == picks;
      picks := picks + [pick];
      b := b + [LetterRunes[pick]];
    }
    return Some(b), picks;
  }
}
