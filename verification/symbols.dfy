/** The function table the tracer is linked with, and the resolver that maps
    a return address to the entry of the function it falls in.

    traceback_internal.h, which declares the table and its bounds, is not
    part of this model: its constants are taken as ARGS_MAX_NUM = 6 (the
    comment at traceback.c:303-304), and, by assumption,
    MAX_FUNCTION_SIZE_BYTES = 1000000 (the comments at traceback.c:272 and
    409 say only "1 MB") and FUNCTS_MAX_NUM = 100. No property proved here
    depends on the exact values. */
module Symbols {
  import opened Machine

  const FUNCTS_MAX_NUM: nat := 100
  const ARGS_MAX_NUM: nat := 6
  const MAX_FUNCTION_SIZE_BYTES: nat := 1000000

  /** The TYPE_* tags. A tag outside the eight known ones matches no case
      of the dispatch switch and renders nothing. */
  datatype ArgType =
    | Char | Int | Float | Double | String | StringArray | VoidStar | Unknown
    | Untagged(tag: int)

  /** One argument: its name, declared type, and byte offset from the
      frame's base pointer. An empty name ends the list. */
  datatype ArgDesc = ArgDesc(name: string, argType: ArgType, offset: int)

  /** One table entry. An empty name ends the table. */
  datatype FunctionDesc = FunctionDesc(name: string, addr: Word, args: seq<ArgDesc>)

  /** GET_ADDR_DIFF: the unsigned 32-bit distance from a back to ra. */
  function AddrDiff(ra: Word, a: Word): Word
  {
    (ra - a) % ADDRESS_SPACE
  }

  /** Index reached by the scan loop started at i: it stops at the first
      empty name, at FUNCTS_MAX_NUM, or at the end of the table. */
  function ScanFrom(table: seq<FunctionDesc>, i: nat): (n: nat)
    requires 1 <= i <= |table|
    ensures i <= n <= |table|
    ensures n <= FUNCTS_MAX_NUM || n == i
    ensures forall j :: i <= j < n ==> table[j].name != ""
    ensures n < |table| && n < FUNCTS_MAX_NUM ==> table[n].name == ""
    decreases |table| - i
  {
    if i == |table| || table[i].name == "" || i >= FUNCTS_MAX_NUM then i else ScanFrom(table, i + 1)
  }

  /** Number of entries get_function_index compares: entry 0, whatever its
      name, and the entries the loop from index 1 visits. */
  function ScanCount(table: seq<FunctionDesc>): (n: nat)
    requires |table| >= 1
    ensures 1 <= n <= |table|
  {
    ScanFrom(table, 1)
  }

  /** The loop's running choice among entries [0, n): entry 0 first, then
      an entry replaces the current choice when its distance is positive and
      strictly smaller (traceback.c:401). */
  function Closest(table: seq<FunctionDesc>, ra: Word, n: nat): (k: nat)
    requires 1 <= n <= |table|
    ensures k < n
  {
    if n == 1 then 0
    else
      var k := Closest(table, ra, n - 1);
      var d := AddrDiff(ra, table[n - 1].addr);
      if 0 < d < AddrDiff(ra, table[k].addr) then n - 1 else k
  }

  /** The index get_function_index returns, or -1. */
  function Resolve(table: seq<FunctionDesc>, ra: Word): (r: int)
    requires |table| >= 1
    ensures -1 <= r < ScanCount(table)
  {
    var k := Closest(table, ra, ScanCount(table));
    var d := AddrDiff(ra, table[k].addr);
    if 0 < d < MAX_FUNCTION_SIZE_BYTES then k else -1
  }

  /** What Closest picks: if entry 0 is at distance 0 nothing can replace
      it; otherwise the pick has the smallest positive distance, and the
      earliest index among equal distances. */
  lemma {:induction false} ClosestIsNearest(table: seq<FunctionDesc>, ra: Word, n: nat)
    requires 1 <= n <= |table|
    ensures var k := Closest(table, ra, n);
      if AddrDiff(ra, table[0].addr) == 0 then k == 0
      else
        AddrDiff(ra, table[k].addr) > 0
        && forall j :: 0 <= j < n ==>
             var dj := AddrDiff(ra, table[j].addr);
             dj == 0 || dj > AddrDiff(ra, table[k].addr) || (dj == AddrDiff(ra, table[k].addr) && j >= k)
  {
    if n > 1 {
      ClosestIsNearest(table, ra, n - 1);
    }
  }

  /** get_function_index's result: -1 exactly when entry 0 lies at distance
      0 or no compared entry lies at a positive distance below
      MAX_FUNCTION_SIZE_BYTES; otherwise an index of a compared entry at the
      smallest positive distance, the earliest one on ties. */
  lemma ResolveIsNearestWithinBound(table: seq<FunctionDesc>, ra: Word)
    requires |table| >= 1
    ensures var n, r := ScanCount(table), Resolve(table, ra);
      && (r == -1 <==>
            AddrDiff(ra, table[0].addr) == 0
            || forall j :: 0 <= j < n ==> AddrDiff(ra, table[j].addr) == 0 || AddrDiff(ra, table[j].addr) >= MAX_FUNCTION_SIZE_BYTES)
      && (r != -1 ==>
            0 <= r < n && 0 < AddrDiff(ra, table[r].addr) < MAX_FUNCTION_SIZE_BYTES
            && forall j :: 0 <= j < n ==>
                 var dj := AddrDiff(ra, table[j].addr);
                 dj == 0 || dj > AddrDiff(ra, table[r].addr) || (dj == AddrDiff(ra, table[r].addr) && j >= r))
  {
    ClosestIsNearest(table, ra, ScanCount(table));
  }

  /** get_function_index: a bounded linear scan for the closest preceding
      function start. The table is a value and is never modified. */
  method GetFunctionIndex(table: seq<FunctionDesc>, ra: Word) returns (r: int)
    requires |table| >= 1
    ensures r == Resolve(table, ra)
    ensures r == -1 || (0 <= r < |table| && 0 < AddrDiff(ra, table[r].addr) < MAX_FUNCTION_SIZE_BYTES)
  {
    var funcIndex := 0;
    var temp := AddrDiff(ra, table[0].addr);
    var i := 1;
    // The C condition tests the name before the bound; both orders stop at the same index.
    while i < |table| && table[i].name != "" && i < FUNCTS_MAX_NUM
      invariant 1 <= i <= ScanCount(table)
      invariant funcIndex == Closest(table, ra, i)
      invariant temp == AddrDiff(ra, table[funcIndex].addr)
      decreases |table| - i
    {
      var addrDiff := AddrDiff(ra, table[i].addr);
      if addrDiff < temp && addrDiff > 0 {
        temp := addrDiff;
        funcIndex := i;
      }
      i := i + 1;
    }
    if temp > 0 && temp < MAX_FUNCTION_SIZE_BYTES {
      r := funcIndex;
    } else {
      r := -1;
    }
  }
}
