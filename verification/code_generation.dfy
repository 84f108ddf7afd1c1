/** `generate_unique_code`: draw `SecureRandom.alphanumeric(8)` until the
    drawn code is not already stored, and keep a code the record already has.
    The random source is an explicit sequence of draws; each draw is the eight
    alphabet indices the generator picked. */
module CodeGeneration {
  import opened Base
  import opened Links

  /** Size of `SecureRandom::ALPHANUMERIC`: A-Z, a-z, 0-9. */
  const AlphabetSize: nat := 62

  type AlphabetIndex = i: int | 0 <= i < AlphabetSize

  /** One call of `SecureRandom.alphanumeric(8)`: eight random picks. */
  type Draw = d: seq<AlphabetIndex> | |d| == CodeLength witness [0, 0, 0, 0, 0, 0, 0, 0]

  /** `SecureRandom::ALPHANUMERIC[i]`, in the library's order A-Z, a-z, 0-9. */
  function AlphabetChar(i: AlphabetIndex): (c: char)
    ensures IsAlphanumeric(c)
  {
    if i < 26 then (('A' as int) + i) as char
    else if i < 52 then (('a' as int) + (i - 26)) as char
    else (('0' as int) + (i - 52)) as char
  }

  /** The alphabet has no repeated letter, so distinct picks give distinct codes. */
  lemma AlphabetCharInjective(i: AlphabetIndex, j: AlphabetIndex)
    requires i != j
    ensures AlphabetChar(i) != AlphabetChar(j)
  {
  }

  /** The shape of every generated code. */
  predicate IsGeneratedCode(s: string)
  {
    |s| == CodeLength && forall k :: 0 <= k < |s| ==> IsAlphanumeric(s[k])
  }

  /** The code spelled by one draw. */
  function CodeOf(d: Draw): (code: string)
    ensures IsGeneratedCode(code)
    ensures forall k :: 0 <= k < |d| ==> code[k] == AlphabetChar(d[k])
  {
    seq(8, k requires 0 <= k < 8 => AlphabetChar(d[k]))
  }

  /** The loop can stop: some draw spells a code that is not yet taken. */
  predicate HasFresh(store: Store, draws: seq<Draw>)
  {
    exists i :: 0 <= i < |draws| && CodeOf(draws[i]) !in store
  }

  /** Reference definition of the retry loop: the code of the first draw
      whose code is not stored, or None when every draw collides. */
  function FirstFresh(store: Store, draws: seq<Draw>): (r: Option<string>)
    ensures r.Some? <==> HasFresh(store, draws)
    ensures r.Some? ==> IsGeneratedCode(r.value) && r.value !in store
    decreases |draws|
  {
    if draws == [] then None
    else if CodeOf(draws[0]) !in store then Some(CodeOf(draws[0]))
    else
      assert HasFresh(store, draws) <==> HasFresh(store, draws[1..]) by {
        if HasFresh(store, draws) {
          var i :| 0 <= i < |draws| && CodeOf(draws[i]) !in store;
          assert draws[1..][i - 1] == draws[i];
        }
        if HasFresh(store, draws[1..]) {
          var i :| 0 <= i < |draws[1..]| && CodeOf(draws[1..][i]) !in store;
          assert draws[i + 1] == draws[1..][i];
        }
      }
      FirstFresh(store, draws[1..])
  }

  /** The generator's code is the first draw not already taken: every
      earlier draw collided with a stored code. */
  lemma {:induction false} FirstFreshIsFirst(store: Store, draws: seq<Draw>)
    requires HasFresh(store, draws)
    ensures exists i :: 0 <= i < |draws| && CodeOf(draws[i]) == FirstFresh(store, draws).value
                        && forall j :: 0 <= j < i ==> CodeOf(draws[j]) in store
    decreases |draws|
  {
    if CodeOf(draws[0]) !in store {
      assert CodeOf(draws[0]) == FirstFresh(store, draws).value;
    } else {
      var rest := FirstFresh(store, draws[1..]);
      assert rest == FirstFresh(store, draws);
      FirstFreshIsFirst(store, draws[1..]);
      var i :| 0 <= i < |draws[1..]| && CodeOf(draws[1..][i]) == rest.value
               && forall j :: 0 <= j < i ==> CodeOf(draws[1..][j]) in store;
      assert draws[i + 1] == draws[1..][i];
      forall j | 0 <= j < i + 1
        ensures CodeOf(draws[j]) in store
      {
        if j > 0 {
          assert draws[j] == draws[1..][j - 1];
        }
      }
    }
  }

  /** The `loop do ... end` of `generate_unique_code`. */
  method GenerateUniqueCode(store: Store, draws: seq<Draw>) returns (code: string)
    requires HasFresh(store, draws)
    ensures IsGeneratedCode(code)
    ensures code !in store
    ensures Some(code) == FirstFresh(store, draws)
  {
    var i := 0;
    while i < |draws| && CodeOf(draws[i]) in store
      invariant 0 <= i <= |draws|
      invariant forall j :: 0 <= j < i ==> CodeOf(draws[j]) in store
      invariant FirstFresh(store, draws) == FirstFresh(store, draws[i..])
      decreases |draws| - i
    {
      assert draws[i..][1..] == draws[i + 1..];
      i := i + 1;
    }
    if i == |draws| {
      assert false;
    }
    code := CodeOf(draws[i]);
  }

  /** `self.code ||= ...`: a code already present (even an empty one) is
      kept; only a missing code is generated. */
  function AssignCode(supplied: Option<string>, store: Store, draws: seq<Draw>): (code: string)
    requires supplied.Some? || HasFresh(store, draws)
    ensures supplied.Some? ==> code == supplied.value
    ensures supplied.None? ==> IsGeneratedCode(code) && code !in store
  {
    match supplied
    case Some(c) => c
    case None => FirstFresh(store, draws).value
  }
}
