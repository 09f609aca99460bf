/** The batch minutes endpoint: validate that `playerIds` is an array, then
    fetch in batches of fifty and record, for every id, the fetched value or
    zero when the fetch failed. The fetched value type is a parameter `V`,
    with `zero` standing for the literal 0 written on failure. */
module MinutesBatch {
  import opened Wrappers

  /** Ids fetched per batch. */
  const Concurrency: nat := 50

  /** The parsed request body. */
  datatype Request = MalformedBody | NotAnArray | IdArray(ids: seq<string>)

  datatype Response<V> = Minutes(minutes: map<string, V>) | BadRequest | ServerError

  /** The value recorded for one fetch. */
  function ValueOf<V>(o: Outcome<V>, zero: V): V {
    match o
    case Ok(v) => v
    case Fail => zero
  }

  /** The map after recording `ids` left to right. */
  function MinutesOf<V>(ids: seq<string>, outcomes: seq<Outcome<V>>, zero: V): (m: map<string, V>)
    requires |ids| == |outcomes|
    ensures m.Keys == set k | k in ids
    decreases |ids|
  {
    if |ids| == 0 then map[]
    else
      var n := |ids| - 1;
      var m := MinutesOf(ids[..n], outcomes[..n], zero);
      assert ids == ids[..n] + [ids[n]];
      m[ids[n] := ValueOf(outcomes[n], zero)]
  }

  /** Every id's entry comes from its LAST occurrence: the fetched value, or
      zero when that fetch failed. */
  lemma {:induction false} LastOccurrenceWins<V>(ids: seq<string>, outcomes: seq<Outcome<V>>, zero: V, i: nat)
    requires |ids| == |outcomes|
    requires i < |ids|
    requires forall j :: i < j < |ids| ==> ids[j] != ids[i]
    ensures ids[i] in MinutesOf(ids, outcomes, zero)
    ensures MinutesOf(ids, outcomes, zero)[ids[i]] == ValueOf(outcomes[i], zero)
    decreases |ids|
  {
    var n := |ids| - 1;
    if i < n {
      LastOccurrenceWins(ids[..n], outcomes[..n], zero, i);
    }
  }

  /** Recording one more id extends the map. */
  lemma MinutesOfSnoc<V>(ids: seq<string>, outcomes: seq<Outcome<V>>, zero: V, j: nat)
    requires |ids| == |outcomes|
    requires j < |ids|
    ensures MinutesOf(ids[..j + 1], outcomes[..j + 1], zero)
            == MinutesOf(ids[..j], outcomes[..j], zero)[ids[j] := ValueOf(outcomes[j], zero)]
  {
    assert ids[..j + 1][..j] == ids[..j];
    assert outcomes[..j + 1][..j] == outcomes[..j];
  }

  /** Records the ids from `start` up to `end`, one after another. */
  method RecordBatch<V>(ids: seq<string>, outcomes: seq<Outcome<V>>, zero: V, before: map<string, V>,
                        start: nat, end: nat) returns (minutes: map<string, V>)
    requires |ids| == |outcomes|
    requires start <= end <= |ids|
    requires before == MinutesOf(ids[..start], outcomes[..start], zero)
    ensures minutes == MinutesOf(ids[..end], outcomes[..end], zero)
  {
    minutes := before;
    var j := start;
    while j < end
      invariant start <= j <= end
      invariant minutes == MinutesOf(ids[..j], outcomes[..j], zero)
    {
      MinutesOfSnoc(ids, outcomes, zero, j);
      minutes := minutes[ids[j] := ValueOf(outcomes[j], zero)];
      j := j + 1;
    }
  }

  /** The batch loop of `POST`: slices of fifty, each recorded in order. */
  method FetchAll<V>(ids: seq<string>, outcomes: seq<Outcome<V>>, zero: V) returns (minutes: map<string, V>)
    requires |ids| == |outcomes|
    ensures minutes == MinutesOf(ids, outcomes, zero)
    ensures minutes.Keys == set k | k in ids
  {
    var n := |ids|;
    minutes := map[];
    var i := 0;
    while i < n
      invariant 0 <= i
      invariant i <= n ==> minutes == MinutesOf(ids[..i], outcomes[..i], zero)
      invariant i > n ==> minutes == MinutesOf(ids, outcomes, zero)
      decreases n - i
    {
      var end := if i + Concurrency <= n then i + Concurrency else n;
      minutes := RecordBatch(ids, outcomes, zero, minutes, i, end);
      if end == n {
        assert ids[..n] == ids && outcomes[..n] == outcomes;
      }
      i := i + Concurrency;
    }
    assert ids[..n] == ids && outcomes[..n] == outcomes;
  }

  /** `POST`: an unparsable body is a server error and a non-array `playerIds`
      is rejected, both before any fetch; otherwise the map of every id. */
  method Post<V>(request: Request, fetch: nat -> Outcome<V>, zero: V) returns (r: Response<V>)
    ensures request.MalformedBody? <==> r.ServerError?
    ensures request.NotAnArray? <==> r.BadRequest?
    ensures request.IdArray? ==> r.Minutes? && r.minutes.Keys == set k | k in request.ids
    ensures request.IdArray? ==>
              forall i :: 0 <= i < |request.ids| && (forall j :: i < j < |request.ids| ==> request.ids[j] != request.ids[i])
                ==> r.minutes[request.ids[i]] == ValueOf(fetch(i), zero)
  {
    match request {
      case MalformedBody => r := ServerError;
      case NotAnArray => r := BadRequest;
      case IdArray(ids) =>
        var outcomes := seq(|ids|, (i: int) requires 0 <= i < |ids| => fetch(i));
        var minutes := FetchAll(ids, outcomes, zero);
        forall i | 0 <= i < |ids| && (forall j :: i < j < |ids| ==> ids[j] != ids[i])
          ensures minutes[ids[i]] == ValueOf(fetch(i), zero)
        {
          LastOccurrenceWins(ids, outcomes, zero, i);
        }
        r := Minutes(minutes);
    }
  }
}
