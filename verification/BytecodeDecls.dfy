/** The table of declarations of a serialised closure (src/ml_bytecode.c). */
module BytecodeDecls {
  import opened Vlq
  import opened BytecodeFormat
  import opened BytecodeStream
  import opened BytecodeWalk
  import opened BytecodeRun
  import Finite

  const MAX_DECLS: int := 0x8000_0000

  /** The `inthash_t` from the address of a declaration to its index; it is a finite map (module Inthash),
      and `Size - Space` is the number of its keys. */
  type Table = map<Decls, index>

  /** A declaration and the ones around it. */
  ghost function Scopes(d: Decls): set<Decls> {
    if d.NoDecls? then {} else {d} + Scopes(d.next)
  }

  /** `all` holds every declaration of a closure: idents and indices fit an `int`. */
  ghost predicate DeclsReady(all: set<Decls>) {
    |all| < MAX_DECLS && forall d | d in all :: d.Scope? && |d.info.ident| < 0x8000_0000
  }

  /** The record of `d`, and the record of the scope around it earlier in the table. */
  ghost predicate RecordedAt(d: Decls, table: Table, records: seq<DeclRecord>)
    requires d in table
  {
    && d.Scope? && table[d] < |records|
    && records[table[d]].info == d.info
    && (if d.next.NoDecls? then records[table[d]].next == -1
        else d.next in table && table[d.next] < table[d] && records[table[d]].next == table[d.next])
  }

  ghost predicate TableOk(table: Table, records: seq<DeclRecord>) {
    |table| == |records| && forall d | d in table :: RecordedAt(d, table, records)
  }

  ghost predicate Extends(table: Table, table': Table) {
    forall d | d in table :: d in table' && table'[d] == table[d]
  }

  /** Following the indices from a declaration's record gives the declaration and the ones around it. */
  lemma {:induction false} ViewIsContent(d: Decls, table: Table, records: seq<DeclRecord>)
    requires TableOk(table, records) && d in table
    ensures View(records, table[d]) == Content(d)
  {
    assert RecordedAt(d, table, records);
    if d.next.Scope? {
      ViewIsContent(d.next, table, records);
    } else {
      assert View(records, -1) == [];
    }
  }

  lemma NewRecord(d: Decls, table: Table, records: seq<DeclRecord>, all: set<Decls>, next: int32)
    requires TableOk(table, records) && table.Keys <= all && DeclsReady(all)
    requires d in all && d !in table
    requires if d.next.NoDecls? then next == -1 else d.next in table && next == table[d.next]
    ensures |table| < MAX_DECLS
    ensures TableOk(table[d := |table|], records + [DeclRecord(d.info, next)])
    ensures Extends(table, table[d := |table|]) && (table[d := |table|]).Keys <= all
  {
    var index := |table|;
    assert table.Keys + {d} <= all;
    Finite.SubsetSmaller(table.Keys + {d}, all);
    assert |table.Keys + {d}| == |table| + 1;
    var table', records' := table[d := |table|], records + [DeclRecord(d.info, next)];
    assert table'.Keys == table.Keys + {d} && |table'| == |table| + 1;
    forall e | e in table' ensures RecordedAt(e, table', records') {
      if e != d {
        assert RecordedAt(e, table, records);
      }
    }
  }

  // ---------------------------------------------------------------- the bytes of the table

  lemma NumPrefix(v: int64, a: Bytes, b: Bytes)
    ensures PutNum(v, a + b) == PutNum(v, a) + b
  {
    hide Encode;
    assert Encode(v) + (a + b) == (Encode(v) + a) + b;
  }

  lemma RecordPrefix(d: DeclRecord, a: Bytes, b: Bytes)
    requires RecordOk(d)
    ensures PutRecord(d, a + b) == PutRecord(d, a) + b
  {
    hide PutNum;
    var ns: seq<int32> := [d.next, d.info.line, d.info.index, d.info.flags];
    CountsPrefix(ns, a, b);
    var cs := PutCounts(ns, a);
    assert d.info.ident + (cs + b) == (d.info.ident + cs) + b;
    NumPrefix(|d.info.ident|, d.info.ident + cs, b);
  }

  lemma {:induction false} CountsPrefix(vs: seq<int32>, a: Bytes, b: Bytes)
    ensures PutCounts(vs, a + b) == PutCounts(vs, a) + b
  {
    hide PutNum;
    if vs != [] {
      CountsPrefix(vs[1..], a, b);
      NumPrefix(vs[0], PutCounts(vs[1..], a), b);
    }
  }

  lemma {:induction false} RecordsPrefix(ds: seq<DeclRecord>, a: Bytes, b: Bytes)
    requires forall d | d in ds :: RecordOk(d)
    ensures PutRecords(ds, a + b) == PutRecords(ds, a) + b
  {
    hide PutRecord, RecordOk;
    if ds != [] {
      RecordsPrefix(ds[1..], a, b);
      RecordPrefix(ds[0], PutRecords(ds[1..], a), b);
    }
  }

  lemma {:induction false} RecordsAppend(ds: seq<DeclRecord>, d: DeclRecord, rest: Bytes)
    requires RecordOk(d) && forall e | e in ds :: RecordOk(e)
    ensures PutRecords(ds + [d], rest) == PutRecords(ds, PutRecord(d, rest))
  {
    hide PutRecord, RecordOk;
    if ds == [] {
      assert [d][1..] == [];
    } else {
      assert (ds + [d])[1..] == ds[1..] + [d];
      RecordsAppend(ds[1..], d, rest);
    }
  }

  ghost predicate RecordsOk(records: seq<DeclRecord>) {
    forall d | d in records :: RecordOk(d)
  }

  /** The bytes of one more record. */
  lemma RecordWritten(buffer: Bytes, records: seq<DeclRecord>, d: DeclRecord)
    requires RecordsOk(records) && RecordOk(d) && buffer == PutRecords(records, [])
    ensures RecordsOk(records + [d])
    ensures buffer + PutRecord(d, []) == PutRecords(records + [d], [])
  {
    hide PutRecord, RecordOk, PutRecords;
    RecordsAppend(records, d, []);
    assert [] + PutRecord(d, []) == PutRecord(d, []);
    RecordsPrefix(records, [], PutRecord(d, []));
  }

  method EmitNum(buffer: Bytes, v: int64, ghost rest: Bytes) returns (buffer': Bytes)
    ensures buffer' + rest == buffer + PutNum(v, rest)
  {
    hide Encode;
    buffer' := buffer + Encode(v);
    assert (buffer + Encode(v)) + rest == buffer + (Encode(v) + rest);
  }

  method EmitString(buffer: Bytes, s: Bytes, ghost rest: Bytes) returns (buffer': Bytes)
    requires |s| < 0x8000_0000
    ensures buffer' + rest == buffer + PutString(s, rest)
  {
    hide PutNum;
    buffer' := EmitNum(buffer, |s|, s + rest);
    assert (buffer' + s) + rest == buffer' + (s + rest);
    buffer' := buffer' + s;
  }

  method EmitRecord(buffer: Bytes, d: DeclRecord, ghost rest: Bytes) returns (buffer': Bytes)
    requires RecordOk(d)
    ensures buffer' + rest == buffer + PutRecord(d, rest)
  {
    hide PutNum, PutString;
    ghost var b4 := PutNum(d.info.flags, rest);
    ghost var b3 := PutNum(d.info.index, b4);
    ghost var b2 := PutNum(d.info.line, b3);
    ghost var b1 := PutNum(d.next, b2);
    buffer' := EmitString(buffer, d.info.ident, b1);
    buffer' := EmitNum(buffer', d.next, b2);
    buffer' := EmitNum(buffer', d.info.line, b3);
    buffer' := EmitNum(buffer', d.info.index, b4);
    buffer' := EmitNum(buffer', d.info.flags, rest);
    FourCounts(d.next, d.info.line, d.info.index, d.info.flags, rest);
  }

  lemma FourCounts(a: int32, b: int32, c: int32, d: int32, rest: Bytes)
    ensures PutCounts([a, b, c, d], rest) == PutNum(a, PutNum(b, PutNum(c, PutNum(d, rest))))
  {
    hide PutNum;
    var one: seq<int32>, two: seq<int32>, three: seq<int32> := [d], [c, d], [b, c, d];
    assert one[1..] == [] && two[1..] == one && three[1..] == two && [a, b, c, d][1..] == three;
    assert PutCounts(two, rest) == PutNum(c, PutCounts(one, rest));
    assert PutCounts(three, rest) == PutNum(b, PutCounts(two, rest));
  }

  /** ml_closure_find_decl: the outer scopes first, then a record with the next free index. */
  method FindDecl(buffer: Bytes, table: Table, d: Decls, ghost records: seq<DeclRecord>, ghost all: set<Decls>)
    returns (buffer': Bytes, table': Table, index: int32, ghost records': seq<DeclRecord>)
    requires DeclsReady(all) && Scopes(d) <= all && table.Keys <= all
    requires TableOk(table, records) && RecordsOk(records) && buffer == PutRecords(records, [])
    ensures TableOk(table', records') && RecordsOk(records') && buffer' == PutRecords(records', [])
    ensures Extends(table, table') && table'.Keys <= table.Keys + Scopes(d)
    ensures if d.NoDecls? then index == -1 else d in table' && index == table'[d]
    decreases d
  {
    hide TableOk, RecordsOk, PutRecords, PutRecord, Extends, DeclsReady;
    buffer', table', records' := buffer, table, records;
    ExtendsItself(table);
    if d.NoDecls? {
      return buffer', table', -1, records';
    }
    if d in table {
      return buffer', table', table[d], records';
    }
    var next;
    buffer', table', next, records' := FindDecl(buffer, table, d.next, records, all);
    InnerIsNew(d);
    assert d !in table' && table'.Keys <= all;
    if d.next.Scope? {
      assert next == table'[d.next];
    }
    ghost var grown := table';
    buffer', table', records' := AddDecl(buffer', table', d, next, records', all);
    ExtendsTrans(table, grown, table');
    index := table'[d];
  }

  method AddDecl(buffer: Bytes, table: Table, d: Decls, next: int32, ghost records: seq<DeclRecord>, ghost all: set<Decls>)
    returns (buffer': Bytes, table': Table, ghost records': seq<DeclRecord>)
    requires DeclsReady(all) && d in all && d !in table && table.Keys <= all
    requires if d.next.NoDecls? then next == -1 else d.next in table && next == table[d.next]
    requires TableOk(table, records) && RecordsOk(records) && buffer == PutRecords(records, [])
    ensures TableOk(table', records') && RecordsOk(records') && buffer' == PutRecords(records', [])
    ensures Extends(table, table') && table'.Keys == table.Keys + {d}
  {
    hide TableOk, RecordsOk, PutRecords, PutRecord, Extends;
    NewRecord(d, table, records, all, next);
    var record := DeclRecord(d.info, next);
    assert RecordOk(record);
    buffer' := EmitRecord(buffer, record, []);
    assert buffer' + [] == buffer';
    RecordWritten(buffer, records, record);
    table', records' := table[d := |table|], records + [record];
    assert table'.Keys == table.Keys + {d};
  }

  lemma ExtendsItself(table: Table)
    ensures Extends(table, table)
  {
  }

  lemma ExtendsTrans(a: Table, b: Table, c: Table)
    requires Extends(a, b) && Extends(b, c)
    ensures Extends(a, c)
  {
  }

  function Depth(d: Decls): nat {
    if d.NoDecls? then 0 else 1 + Depth(d.next)
  }

  lemma {:induction false} ScopesDepth(d: Decls, e: Decls)
    requires e in Scopes(d)
    ensures Depth(e) <= Depth(d)
  {
    if e != d {
      ScopesDepth(d.next, e);
    }
  }

  /** No declaration is around itself. */
  lemma InnerIsNew(d: Decls)
    requires d.Scope?
    ensures d !in Scopes(d.next)
  {
    if d in Scopes(d.next) {
      ScopesDepth(d.next, d);
    }
  }
}
