/** The request filter of a proxy session, which the forwarding loop never calls. */
module Requests {

  /** `req_pass`: false exactly for requests whose first six characters are
      `DELETE` or `RENAME`.  `req[0:6]` is the whole line when it is shorter. */
  function ReqPass(req: string): (pass: bool)
    ensures !pass <==> |req| >= 6 && (req[..6] == "DELETE" || req[..6] == "RENAME")
    ensures |req| < 6 ==> pass
  {
    var head := req[..if |req| < 6 then |req| else 6];
    !(head == "DELETE" || head == "RENAME")
  }
}
