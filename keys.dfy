/** What the two stdin consumers do with the bytes they receive:
    `waitForReturn` blocks until a newline, the space listener signals on
    each space. */
module Keys {

  type byte = b: int | 0 <= b < 256

  const NEWLINE: byte := 10
  const SPACE: byte := 32

  /** `waitForReturn`: takes bytes from the stream until the first newline,
      which it also takes. `rest` is what it leaves unread; `pressed` is
      false when the stream ends first, and then it has taken everything. */
  method WaitForReturn(input: seq<byte>) returns (rest: seq<byte>, pressed: bool)
    ensures pressed <==> NEWLINE in input
    ensures pressed ==>
      exists k :: 0 <= k < |input| && input[k] == NEWLINE && NEWLINE !in input[..k] && rest == input[k + 1..]
    ensures !pressed ==> rest == []
  {
    var i := 0;
    while i < |input|
      invariant i <= |input|
      invariant NEWLINE !in input[..i]
    {
      if input[i] == NEWLINE {
        assert input[..i + 1] == input[..i] + [NEWLINE];
        return input[i + 1..], true;
      }
      assert input[..i + 1] == input[..i] + [input[i]];
      i := i + 1;
    }
    assert input[..i] == input;
    return [], false;
  }

  /** The positions of `input` at which the space listener raises a signal:
      every space, and nothing else, in stream order. */
  function SpaceSignals(input: seq<byte>): (r: seq<nat>)
    ensures forall j :: 0 <= j < |r| ==> r[j] < |input| && input[r[j]] == SPACE
    ensures forall k :: 0 <= k < |input| && input[k] == SPACE ==> k in r
    ensures forall i, j :: 0 <= i < j < |r| ==> r[i] < r[j]
    decreases |input|
  {
    if input == [] then []
    else
      var n := |input| - 1;
      var r := SpaceSignals(input[..n]);
      if input[n] == SPACE then r + [n] else r
  }
}
