/**
 The listings of a remote pane (src/files_remote_provider.c:55-132, 218-417): a folder
 asked of the server, the watchdog beside it, the table that keeps the provider alive
 meanwhile, and what a reply, a refusal or silence leaves in the pane.
 */
module RemoteListing {
  import opened Files

  /**
   A provider: its reference count, its place in the pending table, its watchdog, its
   rows, the path and error flag of its model, and each path told by "navigated".
   */
  datatype Pane = Pane(refs: nat, alive: bool, pending: bool, armed: bool, rows: seq<FileRow>,
                       path: string, error: bool, told: seq<string>)

  const NEW_PANE := Pane(1, true, false, false, [], "/", false, [])

  /** The model's paths are never empty (rust/crates/hxmodel/src/files/remote_listing.rs:72-81). */
  function Normal(path: string): string {
    if path == "" then "/" else path
  }

  /** The last reference gone: the watchdog is taken off and the rows let go. */
  function Finalized(p: Pane): Pane {
    p.(armed := false, rows := [], alive := false)
  }

  function Unreffed(p: Pane): Pane
    requires p.refs > 0
  {
    var q := p.(refs := p.refs - 1);
    if q.refs == 0 then Finalized(q) else q
  }

  function Told(p: Pane): Pane {
    p.(told := p.told + [p.path])
  }

  /** A request for a folder, when the server can be asked (src/files_remote_provider.c:268-292). */
  function Sent(p: Pane, available: bool): Pane {
    if !available then p
    else p.(refs := if p.pending then p.refs else p.refs + 1, pending := true, armed := true)
  }

  /** What every answer starts with: out of the table, the watchdog off. */
  function Settled(p: Pane): Pane
    requires p.refs > 1
  {
    p.(refs := p.refs - 1, pending := false, armed := false)
  }

  /** A reply (src/files_remote_provider.c:299-343); the caller holds a reference. */
  function Replied(p: Pane, path: string, rows: seq<FileRow>): Pane
    requires p.pending ==> p.refs > 1
  {
    if !p.pending then p
    else Told(Settled(p).(rows := rows, error := false, path := Normal(path)))
  }

  /** A refusal (src/files_remote_provider.c:358-389). */
  function Refused(p: Pane, path: string): Pane
    requires p.pending ==> p.refs > 1
  {
    if !p.pending then p
    else Told(Settled(p).(rows := [], error := true, path := Normal(path)))
  }

  /** Silence (src/files_remote_provider.c:239-262): the table's reference goes last. */
  function TimedOut(p: Pane): Pane
    requires p.pending ==> p.refs > 0
  {
    if !p.pending then p.(armed := false)
    else Unreffed(Told(p.(pending := false, armed := false, rows := [], error := true)))
  }

  /** Back to the root for the next connection (src/files_remote_provider.c:399-417). */
  function Reset(p: Pane): Pane {
    Told(p.(rows := [], path := "/", error := false))
  }

  // ---- The classes ----

  /** `pending_listings`: each member holds one reference to itself. NULL is an empty table. */
  class PendingTable {
    var members: set<RemoteProvider>

    constructor ()
      ensures members == {}
    {
      members := {};
    }

    /** `g_hash_table_insert`: the value it replaces, if any, is let go. */
    method Insert(p: RemoteProvider)
      requires p.refs > 1
      modifies this, p
      ensures members == old(members) + {p}
      ensures p.Value(this) == old(p.Value(this)).(pending := true, refs := if p in old(members) then old(p.refs) - 1 else old(p.refs))
    {
      if p in members {
        p.Unref(this);
      }
      members := members + {p};
    }

    /** `g_hash_table_remove`. */
    method Remove(p: RemoteProvider)
      requires p in members ==> p.refs > 0
      modifies this, p
      ensures members == old(members) - {p}
      ensures p.Value(this) == if p in old(members) then Unreffed(old(p.Value(this)).(pending := false)) else old(p.Value(this))
    {
      if p in members {
        members := members - {p};
        p.Unref(this);
      }
    }
  }

  class RemoteProvider {
    var refs: nat
    var alive: bool
    var armed: bool
    var rows: seq<FileRow>
    var path: string
    var error: bool
    var told: seq<string>

    function Value(table: PendingTable): Pane
      reads this, table
    {
      Pane(refs, alive, this in table.members, armed, rows, path, error, told)
    }

    constructor ()
      ensures refs == 1 && alive && !armed && rows == [] && path == "/" && !error && told == []
    {
      refs, alive, armed, rows, path, error, told := 1, true, false, [], "/", false, [];
    }

    method Ref()
      modifies `refs
      ensures refs == old(refs) + 1
    {
      refs := refs + 1;
    }

    method Unref(ghost table: PendingTable)
      requires refs > 0
      modifies this
      ensures Value(table) == Unreffed(old(Value(table)))
    {
      refs := refs - 1;
      if refs == 0 {
        Finalize();
      }
    }

    method Finalize()
      modifies `armed, `rows, `alive
      ensures !armed && rows == [] && !alive
    {
      if armed {
        armed := false;
      }
      rows := [];
      alive := false;
    }

    /** `g_signal_emit_by_name (self, "navigated", path)`. */
    method Tell()
      modifies `told
      ensures told == old(told) + [path]
    {
      told := told + [path];
    }

    method SetPath(to: string)
      modifies `path
      ensures path == Normal(to)
    {
      path := if to == "" then "/" else to;
    }

    /** `remote_send_file_list`; `available` is what `remote_get_unavailable_reason` allows. */
    method SendFileList(table: PendingTable, available: bool)
      requires refs > 0
      modifies this, table
      ensures Value(table) == Sent(old(Value(table)), available)
      ensures table.members == if available then old(table.members) + {this} else old(table.members)
    {
      if !available {
        return;
      }
      if armed {
        armed := false;
      }
      Ref();
      table.Insert(this);
      armed := true;
    }

    /** `remote_list_timeout`. */
    method ListTimeout(table: PendingTable)
      requires refs > 0
      modifies this, table
      ensures Value(table) == TimedOut(old(Value(table)))
      ensures table.members == old(table.members) - {this}
    {
      armed := false;
      if this !in table.members {
        return;
      }
      Ref();
      table.Remove(this);
      rows := [];
      error := true;
      Tell();
      Unref(table);
    }

    /** `hx_remote_files_provider_handle_file_list`. */
    method HandleFileList(table: PendingTable, cflPath: string, cflRows: seq<FileRow>)
      requires if this in table.members then refs > 1 else refs > 0
      modifies this, table
      ensures Value(table) == Replied(old(Value(table)), cflPath, cflRows)
      ensures table.members == old(table.members) - {this}
    {
      if this !in table.members {
        return;
      }
      Ref();
      table.Remove(this);
      if armed {
        armed := false;
      }
      rows := cflRows;
      error := false;
      SetPath(cflPath);
      Tell();
      Unref(table);
    }

    /** `hx_remote_files_provider_handle_file_list_error`. */
    method HandleFileListError(table: PendingTable, cflPath: string)
      requires if this in table.members then refs > 1 else refs > 0
      modifies this, table
      ensures Value(table) == Refused(old(Value(table)), cflPath)
      ensures table.members == old(table.members) - {this}
    {
      if this !in table.members {
        return;
      }
      Ref();
      table.Remove(this);
      if armed {
        armed := false;
      }
      rows := [];
      error := true;
      SetPath(cflPath);
      Tell();
      Unref(table);
    }

    /** `hx_remote_files_provider_reset_to_root`. */
    method ResetToRoot(table: PendingTable)
      modifies this
      ensures Value(table) == Reset(old(Value(table)))
    {
      rows := [];
      path, error := "/", false;
      Tell();
    }
  }
}
