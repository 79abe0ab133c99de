/** The words the string filter refuses (source/srv_db.cpp:3-31), in pieces small enough to reason
    about one at a time. */
module ReservedWords {

  const RESERVED_1: seq<string> := [
    "ACCESSIBLE", "ADD", "ALL", "ALTER", "ANALYZE", "AND",
    "AS", "ASC", "ASENSITIVE", "BEFORE", "BETWEEN", "BIGINT",
    "BINARY", "BLOB", "BOTH", "BY", "CALL", "CASCADE"
  ]

  const RESERVED_2: seq<string> := [
    "CASE", "CHANGE", "CHAR", "CHARACTER", "CHECK", "COLLATE",
    "COLUMN", "CONDITION", "CONSTRAINT", "CONTINUE", "CONVERT", "CREATE",
    "CROSS", "CURRENT_DATE", "CURRENT_TIME", "CURRENT_TIMESTAMP", "CURRENT_USER", "CURSOR"
  ]

  const RESERVED_3: seq<string> := [
    "DATABASE", "DATABASES", "DAY_HOUR", "DAY_MICROSECOND", "DAY_MINUTE", "DAY_SECOND",
    "DEC", "DECIMAL", "DECLARE", "DEFAULT", "DELAYED", "DELETE",
    "DESC", "DESCRIBE", "DETERMINISTIC", "DISTINCT", "DISTINCTROW", "DIV"
  ]

  const RESERVED_4: seq<string> := [
    "DOUBLE", "DROP", "DUAL", "EACH", "ELSE", "ELSEIF",
    "ENCLOSED", "ESCAPED", "EXISTS", "EXIT", "EXPLAIN", "FALSE",
    "FETCH", "FLOAT", "FLOAT4", "FLOAT8", "FOR", "FORCE"
  ]

  const RESERVED_5: seq<string> := [
    "FOREIGN", "FROM", "FULLTEXT", "GRANT", "GENERAL", "GROUP",
    "HAVING", "HIGH_PRIORITY", "HOUR_MICROSECOND", "HOUR_MINUTE", "HOUR_SECOND", "IF",
    "IGNORE", "IGNORE_SERVER_IDS", "IN", "INDEX", "INFILE", "INNER"
  ]

  const RESERVED_6: seq<string> := [
    "INOUT", "INSENSITIVE", "INSERT", "INT", "INT1", "INT2",
    "INT3", "INT4", "INT8", "INTEGER", "INTERVAL", "INTO",
    "IS", "ITERATE", "JOIN", "KEY", "KEYS", "KILL"
  ]

  const RESERVED_7: seq<string> := [
    "LEADING", "LEAVE", "LEFT", "LIKE", "LIMIT", "LINEAR",
    "LINES", "LOAD", "LOCALTIME", "LOCALTIMESTAMP", "LOCK", "LONG",
    "LONGBLOB", "LONGTEXT", "LOOP", "LOW_PRIORITY", "MASTER_SSL_VERIFY_SERVER_CERT", "MASTER_HEARTBEAT_PERIOD"
  ]

  const RESERVED_8: seq<string> := [
    "MATCH", "MAXVALUE", "MEDIUMBLOB", "MEDIUMINT", "MEDIUMTEXT", "MIDDLEINT",
    "MINUTE_MICROSECOND", "MINUTE_SECOND", "MOD", "MODIFIES", "NATURAL", "NOT",
    "NO_WRITE_TO_BINLOG", "NULL", "NUMERIC", "ON", "OPTIMIZE", "OPTION"
  ]

  const RESERVED_9: seq<string> := [
    "OPTIONALLY", "OR", "ORDER", "OUT", "OUTER", "OUTFILE",
    "PRECISION", "PRIMARY", "PROCEDURE", "PURGE", "RANGE", "READ",
    "READS", "READ_WRITE", "REAL", "REFERENCES", "REGEXP", "RELEASE"
  ]

  const RESERVED_10: seq<string> := [
    "RENAME", "REPEAT", "REPLACE", "REQUIRE", "RESIGNAL", "RESTRICT",
    "RETURN", "REVOKE", "RIGHT", "RLIKE", "SCHEMA", "SCHEMAS",
    "SECOND_MICROSECOND", "SELECT", "SENSITIVE", "SEPARATOR", "SET", "SHOW"
  ]

  const RESERVED_11: seq<string> := [
    "SIGNAL", "SLOW", "SMALLINT", "SPATIAL", "SPECIFIC", "SQL",
    "SQLEXCEPTION", "SQLSTATE", "SQLWARNING", "SQL_BIG_RESULT", "SQL_CALC_FOUND_ROWS", "SQL_SMALL_RESULT",
    "SSL", "STARTING", "STRAIGHT_JOIN", "TABLE", "TERMINATED", "THEN"
  ]

  const RESERVED_12: seq<string> := [
    "TINYBLOB", "TINYINT", "TINYTEXT", "TO", "TRAILING", "TRIGGER",
    "TRUE", "UNDO", "UNION", "UNIQUE", "UNLOCK", "UNSIGNED",
    "UPDATE", "USAGE", "USE", "USING", "UTC_DATE", "UTC_TIME"
  ]

  const RESERVED_13: seq<string> := [
    "UTC_TIMESTAMP", "VALUES", "VARBINARY", "VARCHAR", "VARCHARACTER", "VARYING",
    "WHEN", "WHERE", "WHILE", "WITH", "WRITE", "XOR",
    "YEAR_MONTH", "ZEROFILL"
  ]

  const RESERVED_WORDS: seq<string> :=
    RESERVED_1 + RESERVED_2 + RESERVED_3 + RESERVED_4
    + RESERVED_5 + RESERVED_6 + RESERVED_7 + RESERVED_8
    + RESERVED_9 + RESERVED_10 + RESERVED_11 + RESERVED_12
    + RESERVED_13

  // ---------- the filter ----------

  predicate StartsInCapital(word: string) {
    word != "" && 'A' <= word[0] <= 'Z'
  }

  ghost predicate AllCapital(words: seq<string>) {
    forall word <- words :: StartsInCapital(word)
  }

  lemma Capitals1()
    ensures AllCapital(RESERVED_1)
  {
  }

  lemma Capitals2()
    ensures AllCapital(RESERVED_2)
  {
  }

  lemma Capitals3()
    ensures AllCapital(RESERVED_3)
  {
  }

  lemma Capitals4()
    ensures AllCapital(RESERVED_4)
  {
  }

  lemma Capitals5()
    ensures AllCapital(RESERVED_5)
  {
  }

  lemma Capitals6()
    ensures AllCapital(RESERVED_6)
  {
  }

  lemma Capitals7()
    ensures AllCapital(RESERVED_7)
  {
  }

  lemma Capitals8()
    ensures AllCapital(RESERVED_8)
  {
  }

  lemma Capitals9()
    ensures AllCapital(RESERVED_9)
  {
  }

  lemma Capitals10()
    ensures AllCapital(RESERVED_10)
  {
  }

  lemma Capitals11()
    ensures AllCapital(RESERVED_11)
  {
  }

  lemma Capitals12()
    ensures AllCapital(RESERVED_12)
  {
  }

  lemma Capitals13()
    ensures AllCapital(RESERVED_13)
  {
  }

  lemma ReservedWordsAreCapital()
    ensures AllCapital(RESERVED_WORDS)
  {
    Capitals1();
    Capitals2();
    Capitals3();
    Capitals4();
    Capitals5();
    Capitals6();
    Capitals7();
    Capitals8();
    Capitals9();
    Capitals10();
    Capitals11();
    Capitals12();
    Capitals13();
    hide StartsInCapital, RESERVED_1, RESERVED_2, RESERVED_3, RESERVED_4, RESERVED_5, RESERVED_6, RESERVED_7,
      RESERVED_8, RESERVED_9, RESERVED_10, RESERVED_11, RESERVED_12, RESERVED_13;
  }
}
