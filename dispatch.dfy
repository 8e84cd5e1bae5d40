/** Sending a rendered label to a printer (`sendLabelToZebra`).  The
    connection attempts are abstracted to an oracle that tells, for the k-th
    attempt, whether the connection failed, the write failed, or the label
    was written. */
module Dispatch {
  import opened Rewrite

  const MobilePort: string := ":6101"
  const ZebraPort: string := ":9100"

  /** The family of the mobile printers. */
  const MobileFamily: string := "DRU"

  /** What goes after the label on the wire. */
  const Terminator: string := "\r\n\r\n"

  /** The number of retries a label is dispatched with. */
  const DefaultRetries: int := 3

  datatype Outcome = ConnectFail | WriteFail | Written

  /** The port a printer of the family listens on. */
  function Port(family: string): string {
    if family == MobileFamily then MobilePort else ZebraPort
  }

  /** The resolution-specific extension graphics references are renamed to:
      the mobile printers print at 200 dpi, the others at 300 dpi. */
  function Extension(family: string): string {
    if family == MobileFamily then ".200zpl" else ".300zpl"
  }

  /** Rename every `.zpl` reference in the label. */
  function RewriteExt(zpl: string, family: string): string {
    ReplaceAll(zpl, ".zpl", Extension(family))
  }

  // ---------------------------------------------------------------------
  // The extension rewrite is idempotent

  lemma ExtensionShielded(family: string)
    ensures Shielded(".zpl", Extension(family))
  {
    var b := Extension(family);
    var x := ".zpl";
    assert b[1] != 'z' && b[0] == '.' && b[4] == 'z';
    forall j | 0 <= j < |b| ensures !Compatible(b[j..], x) {
      if j == 0 {
        assert b[j..][1] == b[1];
      } else {
        assert b[j..][0] == b[j];
      }
    }
    forall j | 0 <= j < |x[1..]| ensures !Compatible(x[1..][j..], b) {
      assert x[1..][j..][0] == x[j + 1];
    }
  }

  /** Renaming the references of a label whose references are already
      renamed changes nothing: every retry sends the same label. */
  lemma RewriteExtIdempotent(zpl: string, family: string)
    ensures RewriteExt(RewriteExt(zpl, family), family) == RewriteExt(zpl, family)
    ensures !Occurs(RewriteExt(zpl, family), ".zpl")
  {
    ExtensionShielded(family);
    ReplaceAllRemoves(zpl, ".zpl", Extension(family));
    ReplaceAllAbsent(RewriteExt(zpl, family), ".zpl", Extension(family));
  }

  // ---------------------------------------------------------------------
  // The retry rule

  function Max0(n: int): nat {
    if n > 0 then n else 0
  }

  datatype SendResult = SendResult(ok: bool, attempts: nat)

  /** The outcome of the recursion started at attempt `k` with `budget`
      retries left: a failed connection or a failed write is retried while
      the budget is positive; the call then reports success unless the last
      attempt could not connect. */
  function Run(budget: int, oracle: nat -> Outcome, k: nat): (r: SendResult)
    ensures k < r.attempts <= k + Max0(budget) + 1
    decreases Max0(budget)
  {
    match oracle(k)
    case Written => SendResult(true, k + 1)
    case WriteFail =>
      if budget > 0 then Run(budget - 1, oracle, k + 1) else SendResult(true, k + 1)
    case ConnectFail =>
      if budget > 0 then Run(budget - 1, oracle, k + 1) else SendResult(false, k + 1)
  }

  /** The number of attempts among `k .. n - 1` that connected. */
  function Connected(oracle: nat -> Outcome, k: nat, n: nat): (c: nat)
    ensures c <= n - k || n < k
    decreases n
  {
    if n <= k then 0
    else Connected(oracle, k, n - 1) + (if oracle(n - 1) != ConnectFail then 1 else 0)
  }

  /** The call fails exactly when no attempt wrote the label, the whole budget
      was spent, and the last attempt could not connect. */
  lemma {:induction false} RunFails(budget: int, oracle: nat -> Outcome, k: nat)
    ensures var r := Run(budget, oracle, k);
      !r.ok <==>
        (forall j :: k <= j <= k + Max0(budget) ==> oracle(j) != Written) &&
        oracle(k + Max0(budget)) == ConnectFail
    ensures !Run(budget, oracle, k).ok ==> Run(budget, oracle, k).attempts == k + Max0(budget) + 1
    decreases Max0(budget)
  {
    if budget > 0 && oracle(k) != Written {
      RunFails(budget - 1, oracle, k + 1);
      assert Max0(budget - 1) + 1 == Max0(budget);
    }
  }

  /** If every connection attempt fails, the call fails after the whole budget. */
  lemma AllConnectsFail(budget: int, oracle: nat -> Outcome, k: nat)
    requires forall j :: k <= j <= k + Max0(budget) ==> oracle(j) == ConnectFail
    ensures Run(budget, oracle, k) == SendResult(false, k + Max0(budget) + 1)
  {
    RunFails(budget, oracle, k);
  }

  /** A write failure with no retries left is still reported as success. */
  lemma WriteFailAtZero(budget: int, oracle: nat -> Outcome, k: nat)
    requires budget <= 0 && oracle(k) == WriteFail
    ensures Run(budget, oracle, k) == SendResult(true, k + 1)
  {
  }

  /** The first attempt that writes the label ends the retries with success. */
  lemma {:induction false} StopsAtFirstWrite(budget: int, oracle: nat -> Outcome, k: nat, j: nat)
    requires k <= j <= k + Max0(budget) && oracle(j) == Written
    requires forall i :: k <= i < j ==> oracle(i) != Written
    ensures Run(budget, oracle, k) == SendResult(true, j + 1)
    decreases j - k
  {
    if j > k {
      assert oracle(k) != Written;
      StopsAtFirstWrite(budget - 1, oracle, k + 1, j);
    }
  }

  /** The sender.  It resolves the address and renames the references of the
      label once per attempt, as the recursion does; every attempt that
      connects writes the label followed by a blank line. */
  method SendLabel(ip: string, family: string, zpl: string, retry: int, oracle: nat -> Outcome)
    returns (ok: bool, addr: string, attempts: nat, writes: seq<string>)
    ensures addr == ip + Port(family)
    ensures SendResult(ok, attempts) == Run(retry, oracle, 0)
    ensures |writes| == Connected(oracle, 0, attempts)
    ensures forall i :: 0 <= i < |writes| ==> writes[i] == RewriteExt(zpl, family) + Terminator
  {
    addr := ip + Port(family);
    var budget := retry;
    var payload := zpl;
    attempts := 0;
    writes := [];
    ok := false;
    var done := false;
    while !done
      invariant !done ==> Run(budget, oracle, attempts) == Run(retry, oracle, 0)
      invariant done ==> SendResult(ok, attempts) == Run(retry, oracle, 0)
      invariant attempts > 0 ==> payload == RewriteExt(zpl, family)
      invariant attempts == 0 ==> payload == zpl
      invariant |writes| == Connected(oracle, 0, attempts)
      invariant forall i :: 0 <= i < |writes| ==> writes[i] == RewriteExt(zpl, family) + Terminator
      decreases if done then 0 else 1 + Max0(budget)
    {
      if attempts > 0 {
        RewriteExtIdempotent(zpl, family);
      }
      payload := RewriteExt(payload, family);
      var outcome := oracle(attempts);
      if outcome != ConnectFail {
        writes := writes + [payload + Terminator];
      }
      attempts := attempts + 1;
      if outcome == Written || budget <= 0 {
        ok := outcome != ConnectFail;
        done := true;
      } else {
        budget := budget - 1;
      }
    }
  }
}
