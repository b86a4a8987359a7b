/**
 The SQLite nonce store (src/locusmesh/replay.py): a lazily opened connection to a table of
 verified nonces. `Disk` holds the database files that several stores may share.
 */
module Replay {

  // One row of `verified_nonce`, keyed by its nonce.
  datatype Row = Row(requestCommitment: string, attestationDigest: string)
  type Table = map<string, Row>

  // `INSERT OR IGNORE` on the primary key.
  function InsertOrIgnore(t: Table, nonce: string, row: Row): Table {
    if nonce in t then t else t[nonce := row]
  }

  const MEMORY: string := ":memory:"

  class Disk {
    var files: map<string, Table>

    constructor ()
      ensures files == map[]
    {
      files := map[];
    }
  }

  class SQLiteReplayStore {
    const path: string
    const disk: Disk
    var connected: bool
    var memory: Table  // the private table of a ":memory:" connection

    // What a query through this store would see.
    ghost function Rows(): Table
      reads this, disk
    {
      if path == MEMORY then (if connected then memory else map[])
      else if path in disk.files then disk.files[path]
      else map[]
    }

    ghost predicate Valid()
      reads this, disk
    {
      connected && path != MEMORY ==> path in disk.files
    }

    constructor (path: string, disk: Disk)
      ensures this.path == path && this.disk == disk && !connected && Valid()
    {
      this.path := path;
      this.disk := disk;
      connected := false;
      memory := map[];
    }

    // Opens the database and creates the table if it is missing; no row appears or vanishes.
    method Connect()
      requires Valid()
      modifies this, disk
      ensures Valid() && connected && Rows() == old(Rows())
      ensures disk.files == if path == MEMORY then old(disk.files) else old(disk.files)[path := old(Rows())]
    {
      if !connected {
        if path == MEMORY {
          memory := map[];
        } else if path !in disk.files {
          disk.files := disk.files[path := map[]];
        }
        connected := true;
      }
      assert path != MEMORY ==> disk.files == old(disk.files)[path := old(Rows())];
    }

    /** Stores the nonce and answers true exactly if no row holds it yet. */
    method RecordIfNew(nonce: string, requestCommitment: string, attestationDigest: string) returns (isNew: bool)
      requires Valid()
      modifies this, disk
      ensures Valid() && connected
      ensures isNew <==> nonce !in old(Rows())
      ensures Rows() == InsertOrIgnore(old(Rows()), nonce, Row(requestCommitment, attestationDigest))
      ensures disk.files == if path == MEMORY then old(disk.files) else old(disk.files)[path := Rows()]
    {
      Connect();
      var row := Row(requestCommitment, attestationDigest);
      if path == MEMORY {
        isNew := nonce !in memory;
        memory := InsertOrIgnore(memory, nonce, row);
      } else {
        isNew := nonce !in disk.files[path];
        disk.files := disk.files[path := InsertOrIgnore(disk.files[path], nonce, row)];
      }
    }

    /** Closing keeps a file's rows and discards those of a ":memory:" store. */
    method Close()
      requires Valid()
      modifies this
      ensures Valid() && !connected
      ensures Rows() == if path == MEMORY then map[] else old(Rows())
    {
      if connected {
        connected := false;
        memory := map[];
      }
    }
  }
}
