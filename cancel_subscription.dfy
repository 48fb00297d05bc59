/**
 * `CancelSubscription` of the command-line tool's API client: the eight
 * reasons a user may give for leaving, numbered from 1, and the request body
 * built from one of them.
 */
module CancelSubscription {
  import opened Wrappers

  newtype u32 = x: int | 0 <= x < 0x1_0000_0000

  /** `get_reasons`: the table its eight inserts build. */
  const Reasons: map<u32, string> := map[
    1 := "Custormer service was less than expected",
    2 := "Quality was less than expected",
    3 := "Some features are missing",
    4 := "I'm switching to a different service",
    5 := "Ease of use was less than expected",
    6 := "It's too expensive",
    7 := "I don't use the service enough",
    8 := "Other reason"
  ]

  /** The request body: the text of the chosen reason. */
  datatype Cancel = Cancel(reason: string)

  /** `CancelSubscription::new`: the reason numbered `r`, or an error for a number not in the table. */
  function New(r: u32): (res: Result<Cancel, string>)
    ensures res.Ok? <==> r in Reasons
    ensures res.Ok? ==> res.value.reason == Reasons[r]
    ensures res.Err? ==> res.error == "The reason number is out of options"
  {
    if r in Reasons then Ok(Cancel(Reasons[r])) else Err("The reason number is out of options")
  }

  /** The table's keys are exactly 1 to 8. */
  lemma ReasonKeys(r: u32)
    ensures r in Reasons <==> 1 <= r <= 8
  {
  }

  /** The keys are 1 to the table's size, as the listing loop of `unsubscribe` relies on. */
  lemma ReasonsContiguous()
    ensures |Reasons| == 8
    ensures forall n: u32 :: 1 <= n <= |Reasons| as u32 ==> n in Reasons
  {
    var keys: set<u32> := {};
    for k: u32 := 1 to 9
      invariant forall n: u32 :: n in keys <==> 1 <= n < k
      invariant |keys| == (k - 1) as int
    {
      assert k !in keys;
      keys := keys + {k};
    }
    assert Reasons.Keys == keys;
  }

  /** `new` succeeds exactly for 1 to 8. */
  lemma NewInRange(r: u32)
    ensures New(r).Ok? <==> 1 <= r <= 8
  {
    ReasonKeys(r);
  }
}
