/** The two MD5 implementations of the labs (lab3/md5.c and lab4/md5.c) against each other. */
module Md5Agreement {
  import opened Md5Spec
  import Md5Context
  import Md5Stream

  /** transform and md5_process give the same chaining value for every state and every block. */
  method SameChainingValue(st: State, block: seq<octet>) returns (r3: State, r4: State)
    requires |block| == 64
    ensures r3 == r4
  {
    hide Compress;
    r3 := Md5Context.Transform(st, block);
    r4 := Md5Stream.Process(st, block);
  }

  /** The digests of one message agree, however it is cut up for either implementation. */
  method SameDigest(chunks3: seq<seq<octet>>, chunks4: seq<seq<octet>>) returns (d3: seq<octet>, d4: seq<octet>)
    requires Concat(chunks3) == Concat(chunks4) && Md5Context.CountFits(|Concat(chunks3)|)
    requires forall k :: 0 <= k < |chunks4| ==> |chunks4[k]| < 0x8000_0000
    ensures d3 == d4
  {
    hide Md5;
    d3 := Md5Context.DigestOf(chunks3);
    d4 := Md5Stream.DigestOf(chunks4);
  }
}
