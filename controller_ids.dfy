/** The controller id chosen at connection time: "ds5" when it is free,
    otherwise "ds5:k" for the first k = 1, 2, ... that is free. The same code
    serves DS5Controller and DS5EvdevController. */
module ControllerIds {
  import opened Text

  /** The id tried on the k-th round of the search: "ds5", "ds5:1", "ds5:2", ... */
  function CandidateId(k: nat): (id: string)
    ensures |id| >= 3 && id[..3] == "ds5"
  {
    if k == 0 then "ds5" else "ds5:" + DecimalString(k)
  }

  lemma CandidateIdInjective(i: nat, j: nat)
    requires CandidateId(i) == CandidateId(j)
    ensures i == j
  {
    if i != 0 && j != 0 {
      assert DecimalString(i) == CandidateId(i)[4..];
      assert DecimalString(j) == CandidateId(j)[4..];
      DecimalStringInjective(i, j);
    }
  }

  /** The ids tried in the first n rounds. */
  ghost function Tried(n: nat): (s: set<string>)
    ensures forall k :: 0 <= k < n ==> CandidateId(k) in s
    ensures forall id :: id in s ==> exists k :: 0 <= k < n && id == CandidateId(k)
  {
    if n == 0 then {} else Tried(n - 1) + {CandidateId(n - 1)}
  }

  lemma {:induction false} NotYetTried(n: nat)
    ensures CandidateId(n) !in Tried(n)
  {
    if CandidateId(n) in Tried(n) {
      var k :| 0 <= k < n && CandidateId(n) == CandidateId(k);
      CandidateIdInjective(n, k);
    }
  }

  /** _generate_id: the result is free, and every id tried before it is taken. */
  method GenerateId(activeIds: set<string>) returns (id: string)
    ensures id !in activeIds
    ensures exists k: nat :: id == CandidateId(k) && forall j :: 0 <= j < k ==> CandidateId(j) in activeIds
  {
    var magicNumber := 1;
    id := "ds5";
    while id in activeIds
      invariant magicNumber >= 1 && id == CandidateId(magicNumber - 1)
      invariant forall j :: 0 <= j < magicNumber - 1 ==> CandidateId(j) in activeIds
      decreases activeIds - Tried(magicNumber - 1)
    {
      NotYetTried(magicNumber - 1);
      assert Tried(magicNumber) == Tried(magicNumber - 1) + {id};
      id := "ds5:" + DecimalString(magicNumber);
      magicNumber := magicNumber + 1;
    }
  }
}
