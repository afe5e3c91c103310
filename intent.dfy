/**
 * ResponseGenerator.extract_intent of utils.py: the topic is the whole message and
 * the count is the first all-digit word, capped at twenty.
 */
module Intent {
  import opened Text
  import Config

  /** The most recommendations one request may ask for. */
  const MaxRequested: nat := 20

  datatype Intent = Intent(topic: string, numRequested: nat)

  /** No word before position `i` is all digits. */
  predicate NoDigitsBefore(ws: seq<string>, i: nat)
    requires i <= |ws|
  {
    forall j :: 0 <= j < i ==> !IsDigits(ws[j])
  }

  /**
   * The count the words ask for: the value of the first all-digit word, capped,
   * or the default when there is none.
   */
  function RequestedCount(ws: seq<string>): (n: nat)
    ensures n <= MaxRequested
    ensures NoDigitsBefore(ws, |ws|) ==> n == Config.DefaultRecommendations
    ensures forall i :: 0 <= i < |ws| && IsDigits(ws[i]) && NoDigitsBefore(ws, i) ==> n == Min(DigitsValue(ws[i]), MaxRequested)
  {
    if ws == [] then Config.DefaultRecommendations
    else if IsDigits(ws[0]) then Min(DigitsValue(ws[0]), MaxRequested)
    else
      var n := RequestedCount(ws[1..]);
      assert forall i :: 1 <= i < |ws| && NoDigitsBefore(ws, i) ==> NoDigitsBefore(ws[1..], i - 1);
      n
  }

  /** extract_intent: walk the words of the message and stop at the first all-digit one. */
  method ExtractIntent(message: string) returns (intent: Intent)
    ensures intent.topic == message
    ensures intent.numRequested <= MaxRequested
    ensures intent.numRequested == RequestedCount(Words(message))
  {
    var ws := Words(message);
    var num := Config.DefaultRecommendations;
    var i := 0;
    while i < |ws|
      invariant 0 <= i <= |ws|
      invariant NoDigitsBefore(ws, i)
      invariant RequestedCount(ws) == RequestedCount(ws[i..])
    {
      if IsDigits(ws[i]) {
        num := Min(DigitsValue(ws[i]), MaxRequested);
        break;
      }
      assert ws[i..][1..] == ws[i + 1..];
      i := i + 1;
    }
    return Intent(message, num);
  }

  /** A message without an all-digit word asks for the default count. */
  lemma NoNumberDefault(message: string)
    requires forall w :: w in Words(message) ==> !IsDigits(w)
    ensures RequestedCount(Words(message)) == Config.DefaultRecommendations
  {
    var ws := Words(message);
    assert NoDigitsBefore(ws, |ws|) by {
      forall j | 0 <= j < |ws| ensures !IsDigits(ws[j]) {
        assert ws[j] in ws;
      }
    }
  }

  /** "Recommend 3 sermons on healing" asks for three; a number past the cap asks for twenty; "0" asks for none. */
  lemma RequestedCountExamples()
    ensures RequestedCount(["Recommend", "3", "sermons"]) == 3
    ensures RequestedCount(["give", "me", "50"]) == MaxRequested
    ensures RequestedCount(["0"]) == 0
  {
    CountAfterTopicWord();
    CountCapped();
    CountZero();
  }

  lemma CountAfterTopicWord()
    ensures RequestedCount(["Recommend", "3", "sermons"]) == 3
  {
    var ws := ["Recommend", "3", "sermons"];
    assert !IsDigit(ws[0][0]);
    assert IsDigits(ws[1]) && DigitsValue(ws[1]) == 3;
    assert NoDigitsBefore(ws, 1);
  }

  lemma CountCapped()
    ensures RequestedCount(["give", "me", "50"]) == MaxRequested
  {
    var ws := ["give", "me", "50"];
    assert !IsDigit(ws[0][0]) && !IsDigit(ws[1][0]);
    assert DigitsValue("5") == 5;
    assert DigitsValue("50") == 50 by {
      assert "50"[..1] == "5";
    }
    assert IsDigits(ws[2]) && NoDigitsBefore(ws, 2);
  }

  lemma CountZero()
    ensures RequestedCount(["0"]) == 0
  {
    assert DigitsValue("0") == 0;
  }
}
