/**
 The table of legacy function names and the adapter methods they forward
 to, with the proof that it is one-to-one: both columns are in strictly
 ascending lexicographic order, so no name or method occurs twice.
 */
module FunctionTable {
  const LegacyPrefix := "mysql_"

  /** The registration table with the `mysql_` prefix left off each legacy
      name: (suffix, adapter method), in registration order. It is written as
      two halves only so that proofs about single rows stay small. */
  const Rows: seq<(string, string)> := [
      ("affected_rows", "affectedRows"),
      ("client_encoding", "clientEncoding"),
      ("close", "close"),
      ("connect", "connect"),
      ("create_db", "createDb"),
      ("data_seek", "dataSeek"),
      ("db_name", "dbName"),
      ("db_query", "dbQuery"),
      ("drop_db", "dropDb"),
      ("errno", "errno"),
      ("error", "error"),
      ("escape_string", "escapeString"),
      ("fetch_array", "fetchArray"),
      ("fetch_assoc", "fetchAssoc"),
      ("fetch_field", "fetchField"),
      ("fetch_lengths", "fetchLengths"),
      ("fetch_object", "fetchObject"),
      ("fetch_row", "fetchRow"),
      ("field_flags", "fieldFlags"),
      ("field_len", "fieldLen"),
      ("field_name", "fieldName"),
      ("field_seek", "fieldSeek"),
      ("field_table", "fieldTable"),
      ("field_type", "fieldType")
    ] + [
      ("free_result", "freeResult"),
      ("get_client_info", "getClientInfo"),
      ("get_host_info", "getHostInfo"),
      ("get_proto_info", "getProtoInfo"),
      ("get_server_info", "getServerInfo"),
      ("info", "info"),
      ("insert_id", "insertId"),
      ("list_dbs", "listDbs"),
      ("list_fields", "listFields"),
      ("list_processes", "listProcesses"),
      ("list_tables", "listTables"),
      ("num_fields", "numFields"),
      ("num_rows", "numRows"),
      ("pconnect", "pconnect"),
      ("ping", "ping"),
      ("query", "query"),
      ("real_escape_string", "realEscapeString"),
      ("result", "result"),
      ("select_db", "selectDb"),
      ("set_charset", "setCharset"),
      ("stat", "stat"),
      ("tablename", "tablename"),
      ("thread_id", "threadId"),
      ("unbuffered_query", "unbufferedQuery")
    ]

  /** Legacy function name -> adapter method name, in registration order. */
  const Mappings: seq<(string, string)> := WithPrefix(Rows)

  /** Puts the `mysql_` prefix back on each row's name. */
  function WithPrefix(rows: seq<(string, string)>): (r: seq<(string, string)>)
    ensures |r| == |rows|
    ensures forall i :: 0 <= i < |rows| ==> r[i] == (LegacyPrefix + rows[i].0, rows[i].1)
  {
    if |rows| == 0 then []
    else [(LegacyPrefix + rows[0].0, rows[0].1)] + WithPrefix(rows[1..])
  }

  predicate DistinctNames(ms: seq<(string, string)>)
  {
    forall i, j :: 0 <= i < j < |ms| ==> ms[i].0 != ms[j].0
  }

  predicate DistinctMethods(ms: seq<(string, string)>)
  {
    forall i, j :: 0 <= i < j < |ms| ==> ms[i].1 != ms[j].1
  }

  /** Strict lexicographic order on code units, comparing from position `k` on. */
  predicate PrecedesFrom(a: string, b: string, k: nat)
    decreases |a| - k
  {
    k < |b| && (k >= |a| || a[k] < b[k] || (a[k] == b[k] && PrecedesFrom(a, b, k + 1)))
  }

  predicate Precedes(a: string, b: string)
  {
    PrecedesFrom(a, b, 0)
  }

  lemma {:induction false} PrecedesIrreflexive(a: string, k: nat)
    ensures !PrecedesFrom(a, a, k)
    decreases |a| - k
  {
    if k < |a| {
      PrecedesIrreflexive(a, k + 1);
    }
  }

  lemma {:induction false} PrecedesTransitive(a: string, b: string, c: string, k: nat)
    requires PrecedesFrom(a, b, k) && PrecedesFrom(b, c, k)
    ensures PrecedesFrom(a, c, k)
    decreases |a| - k
  {
    if k < |a| && a[k] == b[k] && b[k] == c[k] {
      PrecedesTransitive(a, b, c, k + 1);
    }
  }

  // Each adjacent pair of rows, compared once.
  lemma RowAscending0() ensures Precedes(Rows[0].0, Rows[1].0) && Precedes(Rows[0].1, Rows[1].1) { }
  lemma RowAscending1() ensures Precedes(Rows[1].0, Rows[2].0) && Precedes(Rows[1].1, Rows[2].1) { }
  lemma RowAscending2() ensures Precedes(Rows[2].0, Rows[3].0) && Precedes(Rows[2].1, Rows[3].1) { }
  lemma RowAscending3() ensures Precedes(Rows[3].0, Rows[4].0) && Precedes(Rows[3].1, Rows[4].1) { }
  lemma RowAscending4() ensures Precedes(Rows[4].0, Rows[5].0) && Precedes(Rows[4].1, Rows[5].1) { }
  lemma RowAscending5() ensures Precedes(Rows[5].0, Rows[6].0) && Precedes(Rows[5].1, Rows[6].1) { }
  lemma RowAscending6() ensures Precedes(Rows[6].0, Rows[7].0) && Precedes(Rows[6].1, Rows[7].1) { }
  lemma RowAscending7() ensures Precedes(Rows[7].0, Rows[8].0) && Precedes(Rows[7].1, Rows[8].1) { }
  lemma RowAscending8() ensures Precedes(Rows[8].0, Rows[9].0) && Precedes(Rows[8].1, Rows[9].1) { }
  lemma RowAscending9() ensures Precedes(Rows[9].0, Rows[10].0) && Precedes(Rows[9].1, Rows[10].1) { }
  lemma RowAscending10() ensures Precedes(Rows[10].0, Rows[11].0) && Precedes(Rows[10].1, Rows[11].1) { }
  lemma RowAscending11() ensures Precedes(Rows[11].0, Rows[12].0) && Precedes(Rows[11].1, Rows[12].1) { }
  lemma RowAscending12() ensures Precedes(Rows[12].0, Rows[13].0) && Precedes(Rows[12].1, Rows[13].1) { }
  lemma RowAscending13() ensures Precedes(Rows[13].0, Rows[14].0) && Precedes(Rows[13].1, Rows[14].1) { }
  lemma RowAscending14() ensures Precedes(Rows[14].0, Rows[15].0) && Precedes(Rows[14].1, Rows[15].1) { }
  lemma RowAscending15() ensures Precedes(Rows[15].0, Rows[16].0) && Precedes(Rows[15].1, Rows[16].1) { }
  lemma RowAscending16() ensures Precedes(Rows[16].0, Rows[17].0) && Precedes(Rows[16].1, Rows[17].1) { }
  lemma RowAscending17() ensures Precedes(Rows[17].0, Rows[18].0) && Precedes(Rows[17].1, Rows[18].1) { }
  lemma RowAscending18() ensures Precedes(Rows[18].0, Rows[19].0) && Precedes(Rows[18].1, Rows[19].1) { }
  lemma RowAscending19() ensures Precedes(Rows[19].0, Rows[20].0) && Precedes(Rows[19].1, Rows[20].1) { }
  lemma RowAscending20() ensures Precedes(Rows[20].0, Rows[21].0) && Precedes(Rows[20].1, Rows[21].1) { }
  lemma RowAscending21() ensures Precedes(Rows[21].0, Rows[22].0) && Precedes(Rows[21].1, Rows[22].1) { }
  lemma RowAscending22() ensures Precedes(Rows[22].0, Rows[23].0) && Precedes(Rows[22].1, Rows[23].1) { }
  lemma RowAscending23() ensures Precedes(Rows[23].0, Rows[24].0) && Precedes(Rows[23].1, Rows[24].1) { }
  lemma RowAscending24() ensures Precedes(Rows[24].0, Rows[25].0) && Precedes(Rows[24].1, Rows[25].1) { }
  lemma RowAscending25() ensures Precedes(Rows[25].0, Rows[26].0) && Precedes(Rows[25].1, Rows[26].1) { }
  lemma RowAscending26() ensures Precedes(Rows[26].0, Rows[27].0) && Precedes(Rows[26].1, Rows[27].1) { }
  lemma RowAscending27() ensures Precedes(Rows[27].0, Rows[28].0) && Precedes(Rows[27].1, Rows[28].1) { }
  lemma RowAscending28() ensures Precedes(Rows[28].0, Rows[29].0) && Precedes(Rows[28].1, Rows[29].1) { }
  lemma RowAscending29() ensures Precedes(Rows[29].0, Rows[30].0) && Precedes(Rows[29].1, Rows[30].1) { }
  lemma RowAscending30() ensures Precedes(Rows[30].0, Rows[31].0) && Precedes(Rows[30].1, Rows[31].1) { }
  lemma RowAscending31() ensures Precedes(Rows[31].0, Rows[32].0) && Precedes(Rows[31].1, Rows[32].1) { }
  lemma RowAscending32() ensures Precedes(Rows[32].0, Rows[33].0) && Precedes(Rows[32].1, Rows[33].1) { }
  lemma RowAscending33() ensures Precedes(Rows[33].0, Rows[34].0) && Precedes(Rows[33].1, Rows[34].1) { }
  lemma RowAscending34() ensures Precedes(Rows[34].0, Rows[35].0) && Precedes(Rows[34].1, Rows[35].1) { }
  lemma RowAscending35() ensures Precedes(Rows[35].0, Rows[36].0) && Precedes(Rows[35].1, Rows[36].1) { }
  lemma RowAscending36() ensures Precedes(Rows[36].0, Rows[37].0) && Precedes(Rows[36].1, Rows[37].1) { }
  lemma RowAscending37() ensures Precedes(Rows[37].0, Rows[38].0) && Precedes(Rows[37].1, Rows[38].1) { }
  lemma RowAscending38() ensures Precedes(Rows[38].0, Rows[39].0) && Precedes(Rows[38].1, Rows[39].1) { }
  lemma RowAscending39() ensures Precedes(Rows[39].0, Rows[40].0) && Precedes(Rows[39].1, Rows[40].1) { }
  lemma RowAscending40() ensures Precedes(Rows[40].0, Rows[41].0) && Precedes(Rows[40].1, Rows[41].1) { }
  lemma RowAscending41() ensures Precedes(Rows[41].0, Rows[42].0) && Precedes(Rows[41].1, Rows[42].1) { }
  lemma RowAscending42() ensures Precedes(Rows[42].0, Rows[43].0) && Precedes(Rows[42].1, Rows[43].1) { }
  lemma RowAscending43() ensures Precedes(Rows[43].0, Rows[44].0) && Precedes(Rows[43].1, Rows[44].1) { }
  lemma RowAscending44() ensures Precedes(Rows[44].0, Rows[45].0) && Precedes(Rows[44].1, Rows[45].1) { }
  lemma RowAscending45() ensures Precedes(Rows[45].0, Rows[46].0) && Precedes(Rows[45].1, Rows[46].1) { }
  lemma RowAscending46() ensures Precedes(Rows[46].0, Rows[47].0) && Precedes(Rows[46].1, Rows[47].1) { }

  lemma RowsAscendingFrom0()
    ensures forall i :: 0 <= i < 8 ==> Precedes(Rows[i].0, Rows[i + 1].0) && Precedes(Rows[i].1, Rows[i + 1].1)
  {
    RowAscending0();
    RowAscending1();
    RowAscending2();
    RowAscending3();
    RowAscending4();
    RowAscending5();
    RowAscending6();
    RowAscending7();
  }

  lemma RowsAscendingFrom8()
    ensures forall i :: 8 <= i < 16 ==> Precedes(Rows[i].0, Rows[i + 1].0) && Precedes(Rows[i].1, Rows[i + 1].1)
  {
    RowAscending8();
    RowAscending9();
    RowAscending10();
    RowAscending11();
    RowAscending12();
    RowAscending13();
    RowAscending14();
    RowAscending15();
  }

  lemma RowsAscendingFrom16()
    ensures forall i :: 16 <= i < 24 ==> Precedes(Rows[i].0, Rows[i + 1].0) && Precedes(Rows[i].1, Rows[i + 1].1)
  {
    RowAscending16();
    RowAscending17();
    RowAscending18();
    RowAscending19();
    RowAscending20();
    RowAscending21();
    RowAscending22();
    RowAscending23();
  }

  lemma RowsAscendingFrom24()
    ensures forall i :: 24 <= i < 32 ==> Precedes(Rows[i].0, Rows[i + 1].0) && Precedes(Rows[i].1, Rows[i + 1].1)
  {
    RowAscending24();
    RowAscending25();
    RowAscending26();
    RowAscending27();
    RowAscending28();
    RowAscending29();
    RowAscending30();
    RowAscending31();
  }

  lemma RowsAscendingFrom32()
    ensures forall i :: 32 <= i < 40 ==> Precedes(Rows[i].0, Rows[i + 1].0) && Precedes(Rows[i].1, Rows[i + 1].1)
  {
    RowAscending32();
    RowAscending33();
    RowAscending34();
    RowAscending35();
    RowAscending36();
    RowAscending37();
    RowAscending38();
    RowAscending39();
  }

  lemma RowsAscendingFrom40()
    ensures forall i :: 40 <= i < 47 ==> Precedes(Rows[i].0, Rows[i + 1].0) && Precedes(Rows[i].1, Rows[i + 1].1)
  {
    RowAscending40();
    RowAscending41();
    RowAscending42();
    RowAscending43();
    RowAscending44();
    RowAscending45();
    RowAscending46();
  }

  /** Both columns of the table are in ascending order. */
  lemma RowsAscending()
    ensures forall i :: 0 <= i < |Rows| - 1 ==> Precedes(Rows[i].0, Rows[i + 1].0) && Precedes(Rows[i].1, Rows[i + 1].1)
  {
    RowsAscendingFrom0();
    RowsAscendingFrom8();
    RowsAscendingFrom16();
    RowsAscendingFrom24();
    RowsAscendingFrom32();
    RowsAscendingFrom40();
  }

  lemma PrefixCancels(p: string, a: string, b: string)
    requires p + a == p + b
    ensures a == b
  {
    assert a == (p + a)[|p|..];
  }

  /** Every row precedes all later rows in both columns. */
  lemma {:induction false} RowsOrdered(i: nat, j: nat)
    requires i < j < |Rows|
    ensures Precedes(Rows[i].0, Rows[j].0) && Precedes(Rows[i].1, Rows[j].1)
    decreases j - i
  {
    RowsAscending();
    if i + 1 < j {
      RowsOrdered(i + 1, j);
      PrecedesTransitive(Rows[i].0, Rows[i + 1].0, Rows[j].0, 0);
      PrecedesTransitive(Rows[i].1, Rows[i + 1].1, Rows[j].1, 0);
    }
  }

  /** The table pairs 48 distinct legacy names with 48 distinct methods. */
  lemma MappingsOneToOne()
    ensures |Mappings| == 48
    ensures DistinctNames(Mappings)
    ensures DistinctMethods(Mappings)
  {
    forall i, j | 0 <= i < j < |Mappings|
      ensures Mappings[i].0 != Mappings[j].0 && Mappings[i].1 != Mappings[j].1
    {
      RowsOrdered(i, j);
      PrecedesIrreflexive(Rows[i].0, 0);
      PrecedesIrreflexive(Rows[i].1, 0);
      if Mappings[i].0 == Mappings[j].0 {
        PrefixCancels(LegacyPrefix, Rows[i].0, Rows[j].0);
      }
    }
  }
}
