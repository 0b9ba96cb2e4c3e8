/**
 * src/app/api/network-probe/route.ts: a best-effort reachability check of a
 * private-network target. The `fetch(…, {method: "HEAD"})` with its 3-second
 * abort is an oracle from the requested URL to a status code, or `None` for
 * an error or abort.
 */
module NetworkProbe {
  import opened Wrappers
  import opened Js
  import opened Strings
  import opened Locality

  /** `/^\d+\.\d+\.\d+\.\d+$/.test(t)`: exactly four non-empty digit runs joined by dots. */
  predicate IsDottedQuad(t: string) {
    var parts := Split(t, '.');
    |parts| == 4 && forall i :: 0 <= i < 4 ==> parts[i] != "" && AllDigits(parts[i])
  }

  /** `http` for localhost-ish and numeric targets, `https` otherwise. */
  function Protocol(t: string): string {
    if Contains(t, "localhost") || IsDottedQuad(t) then "http" else "https"
  }

  /** The JSON the handler answers with. */
  datatype ProbeJson =
    | TargetRequired
    | TargetForbidden
    | Completed(target: string, isReachable: bool, statusCode: int)
    | ConnectionFailed(target: string)
  {
    predicate Success() { Completed? }
  }

  /** The status, the JSON and the one request the handler issued, if any. */
  datatype ProbeResult = ProbeResult(status: nat, json: ProbeJson, issued: Option<string>)

  /** `GET /api/network-probe?target=…`. */
  function Get(target: Option<string>, fetch: string -> Option<int>): (r: ProbeResult)
    ensures !Truthy(target) ==> r == ProbeResult(400, TargetRequired, None)
    ensures Truthy(target) && !ProbeTargetAllowed(target.value) ==> r == ProbeResult(403, TargetForbidden, None)
    ensures r.issued.Some? <==> Truthy(target) && ProbeTargetAllowed(target.value)
    ensures r.issued.Some? ==>
      && r.status == 200
      && r.issued.value == Protocol(target.value) + "://" + target.value
      && match fetch(r.issued.value)
         case Some(code) => r.json == Completed(target.value, 200 <= code <= 299, code) && r.json.Success()
         case None => r.json == ConnectionFailed(target.value) && !r.json.Success()
  {
    if !Truthy(target) then ProbeResult(400, TargetRequired, None)
    else if !ProbeTargetAllowed(target.value) then ProbeResult(403, TargetForbidden, None)
    else
      var t := target.value;
      var url := Protocol(t) + "://" + t;
      match fetch(url)
      case Some(code) => ProbeResult(200, Completed(t, 200 <= code <= 299, code), Some(url))
      case None => ProbeResult(200, ConnectionFailed(t), Some(url))
  }

  /** `HEAD /api/network-probe?target=…`: no allow-list, no request. */
  function Head(target: Option<string>): (status: nat)
    ensures status == 400 <==> !Truthy(target)
    ensures status == 200 <==> Truthy(target)
  {
    if Truthy(target) then 200 else 400
  }

  /** A public address is refused with 403 and never contacted, whatever the network would answer. */
  lemma PublicTargetNeverContacted(fetch: string -> Option<int>)
    ensures Get(Some("8.8.8.8"), fetch) == ProbeResult(403, TargetForbidden, None)
  {
    PublicAddressRefused();
  }

  /** Four non-empty digit runs joined by dots form a dotted quad. */
  /** A digit run before a dot splits off as one part. */
  lemma SplitDigitsDot(a: string, b: string)
    requires AllDigits(a)
    ensures Split(a + "." + b, '.') == [a] + Split(b, '.')
  {
    assert forall i :: 0 <= i < |a| ==> a[i] != '.' by {
      forall i | 0 <= i < |a| ensures a[i] != '.' { assert IsDigit(a[i]); }
    }
    SplitCons(a, '.', b);
    assert a + "." + b == a + ['.'] + b;
  }

  lemma DottedQuadOf(a: string, b: string, c: string, d: string)
    requires a != "" && b != "" && c != "" && d != ""
    requires AllDigits(a) && AllDigits(b) && AllDigits(c) && AllDigits(d)
    ensures IsDottedQuad(a + "." + b + "." + c + "." + d)
  {
    assert forall i :: 0 <= i < |d| ==> d[i] != '.' by {
      forall i | 0 <= i < |d| ensures d[i] != '.' { assert IsDigit(d[i]); }
    }
    SplitNone(d, '.');
    var t3 := c + "." + d;
    SplitDigitsDot(c, d);
    var t2 := b + "." + t3;
    SplitDigitsDot(b, t3);
    var t := a + "." + t2;
    SplitDigitsDot(a, t2);
    QuadFromParts(t, a, b, c, d);
    assert t == a + "." + b + "." + c + "." + d;
  }

  lemma QuadFromParts(t: string, a: string, b: string, c: string, d: string)
    requires a != "" && b != "" && c != "" && d != ""
    requires AllDigits(a) && AllDigits(b) && AllDigits(c) && AllDigits(d)
    requires Split(t, '.') == [a] + ([b] + ([c] + [d]))
    ensures IsDottedQuad(t)
  {
    var parts := Split(t, '.');
    assert parts == [a, b, c, d];
  }


  /** Joining digit runs with dots yields only digits and dots. */
  lemma {:induction false} JoinOfDigitRuns(parts: seq<string>)
    requires |parts| >= 1
    requires forall i :: 0 <= i < |parts| ==> AllDigits(parts[i])
    ensures forall k :: 0 <= k < |Join(parts, '.')| ==> IsDigit(Join(parts, '.')[k]) || Join(parts, '.')[k] == '.'
    decreases |parts|
  {
    if |parts| > 1 {
      JoinOfDigitRuns(parts[1..]);
      var rest := Join(parts[1..], '.');
      var j := Join(parts, '.');
      assert j == parts[0] + ['.'] + rest;
      forall k | 0 <= k < |j|
        ensures IsDigit(j[k]) || j[k] == '.'
      {
        if k < |parts[0]| {
          assert j[k] == parts[0][k];
        } else if k > |parts[0]| {
          assert j[k] == rest[k - |parts[0]| - 1];
        }
      }
    }
  }

  /** Every code unit of a dotted quad is a digit or a dot. */
  lemma DottedQuadChars(t: string)
    requires IsDottedQuad(t)
    ensures forall i :: 0 <= i < |t| ==> IsDigit(t[i]) || t[i] == '.'
  {
    JoinSplit(t, '.');
    JoinOfDigitRuns(Split(t, '.'));
  }

  /** A target with a letter is fetched over https unless it mentions localhost. */
  lemma NamedTargetUsesHttps(t: string, i: nat)
    requires i < |t| && !IsDigit(t[i]) && t[i] != '.'
    requires !Contains(t, "localhost")
    ensures Protocol(t) == "https"
  {
    if IsDottedQuad(t) {
      DottedQuadChars(t);
    }
  }
}
