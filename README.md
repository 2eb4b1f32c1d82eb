# Xen node-controller handlers, modelled in Dafny

This project models the Xen handlers of the Eucalyptus node controller
(`node/handlers_xen.c`). A node controller keeps a table of the virtual
machine instances on its host, keyed by instance id. The handlers act on that
table:

- **getResources** reports the node's cores and the memory left for instances.
- **doRunInstance** accepts a run request and rolls it back when a step fails.
- **doRebootInstance** reboots an instance's domain.
- **doAttachVolume** and **doDetachVolume** attach and detach block devices
  and keep each instance's volume list in step with the hypervisor.
- **doGetConsoleOutput** captures a domain's console through a helper process.

Modules:

- `NcTypes` (`nc_types.dfy`): status codes, instance states, parameters,
  network configuration, volume records, collaborator outcomes.
- `Resources` (`resources.dfy`): the capacity query as a function, with the
  C unsigned 64-bit arithmetic written out.
- `Volumes` (`volumes.dfy`): removing a matching volume record, and the
  attach/detach round trip.
- `Registry` (`registry.dfy`): the `Instance` record as a class whose fields
  the handlers update in place, and the `InstanceRegistry` class holding the
  id-to-record map with find, add and remove.
- `XenHandlers` (`handlers.dfy`): run, reboot, attach and detach as methods
  over the registry.
- `Console` (`console.dfy`): the console handler over a 64 KiB `array<char>`
  buffer, with its bounded poll and read loops.

Every outside effect is a parameter of the method that sees it:

- whether allocation succeeds, `add_instance`'s code, whether the start-up
  thread spawns, and the clock;
- the hypervisor view: no connection, no domain, or a domain and the result
  of the call or of the detach helper;
- device-name conversion, as a function of the requested name;
- for the console: the pid `fork()` returns, each `stat()` and `read()`
  outcome, whether `open()` succeeds, and the encoder.

Log warnings become boolean results (`warned`). Calling the snapshot writer
and running the detach helper become `snapshotSaved` and `helperRun`.

OK is taken to be 0. At line 335 the attach handler compares a zero
conversion result with OK, so the code relies on this. The numeric values of
ERROR, ERROR_FATAL and NOT_FOUND are defined outside this file. They are
symbolic here. The literal 1 and 2 of the run handler, and codes passed on
from `add_instance` and `convert_dev_names`, are `Code(n)`. The type of `n`
excludes 0, so `Ok` is the only way to write the code 0.

Two points of the volume handlers' behaviour are easy to miss:

- When the hypervisor attach succeeds but the volume record cannot be
  added, the attach handler returns ERROR, not ERROR_FATAL. It calls the
  snapshot writer and never looks at its result.
- The detach handler writes no snapshot after it changes the volume list.

## Model

| member | source | states |
|---|---|---|
| `Resources.Int64Of` | node/handlers_xen.c:67 | the long long that receives an unsigned 64-bit result lies in the signed range and agrees with the exact value modulo 2^64 |
| `Resources.GetResources` | node/handlers_xen.c:52-72 | fails with ERROR_FATAL exactly when the node query fails or dom0-min-mem is not found; otherwise cores are the node's CPUs and memory agrees modulo 2^64 with total MiB − 32 − dom0-min-mem |
| `Resources.AvailableMemoryExact` | node/handlers_xen.c:66-67 | whenever the difference fits a long long, memory is exactly total KiB div 1024 − 32 − dom0-min-mem, with no clamping at zero |
| `Resources.FourGiBNode` | node/handlers_xen.c:66-70 | a 4096 MiB node whose dom0 reserves 256 MiB offers 3808 MiB and all its CPUs |
| `Volumes.FreeVolume` | node/handlers_xen.c:463-469 | removing a (volume id, remote device, local device) record succeeds exactly when such a record is attached; the list then loses one copy of it and keeps every other record |
| `Volumes.FreeVolumeRemovesFirst` | node/handlers_xen.c:463-469 | when the first equal record sits at position i, removal cuts out exactly position i and keeps the other records in their order |
| `Volumes.FreeAppendedRestores` | node/handlers_xen.c:460-470 | detaching the record that attach appended (line 339) gives back exactly the earlier list, when that list held no equal record |
| `Volumes.FreeAppendedWhenPresent` | node/handlers_xen.c:460-470 | when an equal record was already attached, append-then-remove removes the older copy, and the new copy ends up last |
| `Volumes.FreeAppendedKeepsRecords` | node/handlers_xen.c:460-470 | append-then-remove of the same record always succeeds and keeps the same multiset of records, whether or not an equal record was attached before |
| `Registry.Instance.Allocate` | node/handlers_xen.c:110-120 | a fresh record with the requested id, reservation, launch metadata, shape and network block, in the given state, with no volumes |
| `Registry.InstanceRegistry.Find` | node/handlers_xen.c:103-106 | the record stored under the id, or null exactly when the id is absent |
| `Registry.InstanceRegistry.Add` | node/handlers_xen.c:126-133 | the record is inserted under its own id exactly when the table answers 0; that answer is passed on; every id still names its own record |
| `Registry.InstanceRegistry.Remove` | node/handlers_xen.c:150-152 | removes this very record and nothing else |
| `XenHandlers.RunInstance` | node/handlers_xen.c:92-159 | a duplicate id gives 1, failed allocation 2, a failed insertion the table's code, a failed spawn 1, and in all four the table is as before and no record comes out. Success gives 0 exactly when all steps succeed, and the table gains exactly the new record. That record is BOOTING, stamped with the launch time, with the requested shape, both IPs "0.0.0.0" and no volumes |
| `XenHandlers.RebootInstance` | node/handlers_xen.c:170-195 | an absent id gives NOT_FOUND; a present id gives 0 whatever the connection, lookup or reboot result; the reboot is issued only when the domain is found; a missing domain warns only when the instance is not BOOTING; nothing is modified |
| `XenHandlers.AttachVolume` | node/handlers_xen.c:294-348 | a nonzero conversion code is returned before any lookup, with the volume list unchanged; then an absent id gives NOT_FOUND; no connection, no domain or a failed attach gives ERROR with the list unchanged; only a successful hypervisor attach writes the snapshot, and appends (volume id, remote device, converted name) when the record can be added (OK), else the answer is ERROR and the list is unchanged |
| `XenHandlers.DetachVolume` | node/handlers_xen.c:366-472 | same guard order as attach, and a nonzero conversion code likewise leaves the volume list unchanged; the helper runs only when the domain is found; the matching record (volume id, remote device, converted name) is removed only when the helper exits 0 and such a record exists (OK); otherwise ERROR with the list unchanged |
| `XenHandlers.AttachThenDetach` | node/handlers_xen.c:339-464 | attach followed by detach with the same names, both hypervisor steps succeeding, gives OK twice and restores the instance's volume list exactly, when the list held no equal record and the record could be added (for a list that already held one, see `Volumes.FreeAppendedWhenPresent`) |
| `XenHandlers.DuplicateRunRejected` | node/handlers_xen.c:103-140 | on an empty table "i-1" is accepted BOOTING with private IP "0.0.0.0"; a second run of "i-1" gives 1 |
| `Console.CStr` | node/handlers_xen.c:274 | the C string of a buffer is a prefix of it, holds no NUL, and is followed by a NUL when shorter than the buffer |
| `Console.CStrIsFirstNul` | node/handlers_xen.c:270-274 | the C string is exactly the characters before the first NUL |
| `Console.AfterReadsKeepsLast` | node/handlers_xen.c:254-261 | reads of at most bufsize−1 characters never touch the last byte, so the zeroed buffer stays NUL-terminated |
| `Console.PollForFile` | node/handlers_xen.c:243-244 | at most 10000 failed stat() calls; the poll stops at the first success |
| `Console.ReadCapture` | node/handlers_xen.c:256-261 | between 1 and 1000 reads; the loop stops at the first read returning 0 or at the cap, and not on a failed read; the buffer ends as the successive reads left it |
| `Console.Capture` | node/handlers_xen.c:245-263 | a file that does not open is not read; otherwise the buffer is zeroed and read as above; the last byte stays NUL |
| `Console.MarkEmpty` | node/handlers_xen.c:270-272 | a buffer holding the empty C string afterwards holds "EMPTY"; snprintf writes only the first six characters, so the rest of the buffer is untouched; any other buffer is untouched |
| `Console.GetConsoleOutput` | node/handlers_xen.c:207-277 | a non-root caller gets the encoding of "NOT SUPPORTED" with no fork, poll or read. A root caller forks, and the parent signals whatever nonzero pid fork() returned, -1 included. It polls at most 10000 times and reads at most 1000 times. The encoded text is the captured C string, or "EMPTY" when the capture starts with NUL. It is never empty, holds no NUL and is shorter than the 64 KiB buffer |
| `Console.ForkFailureSignalsEveryone` | node/handlers_xen.c:220-265 | a root call whose fork() fails ends in kill(-1, 9) as written, and signals nobody in the corrected handler |
| `Console.KillTarget` | node/handlers_xen.c:264 | corrected: only a created child (pid > 0) is signalled, and it is |
| `Console.GetConsoleOutputCorrected` | node/handlers_xen.c:207-277 | corrected: the same results as the handler as written, except that the parent signals only a created child |

## Left out

- `doInitialize` (lines 28-42) only formats command paths and sets the hypervisor URI.
- The semaphores `inst_sem` and `xen_sem`, thread creation and the body of `startup_thread` are concurrency. The model is sequential, and spawning is one boolean outcome.
- The calls into libvirt (node query, domain lookup, attach, reboot, `virDomainFree`) are foreign. Their outcomes are parameters.
- `fork`, `execl`, `select`, `kill`, `wait`, `timewait`, `mkstemp`, `system` and `unlink`, and the `/tmp` scratch files, are process and file I/O. Only their outcomes are modelled.
- The detach helper reaches the parent through the child's `exit(system(...) >> 8)` or `exit(1)`. `WEXITSTATUS` then reads it back, even after a timed-out `timewait`. All of this is one exit-status parameter.
- The `select` call in the console handler has an ignored result. It is not modelled.
- The disabled `#if 0` detach path (lines 415-440) is not compiled.
- Logging becomes `warned` results. The disk XML strings and `time(NULL)` are left out; the launch time is a parameter.
- `allocate_instance`, `add_volume`, `scSaveInstanceInfo`, `convert_dev_names`, `get_value`, `system_output`, `base64_enc` and `free_instance` are not part of this model. They are specified abstractly:
  - allocation yields a record built from its arguments, or fails;
  - adding a volume appends it, or fails and leaves the list as it was;
  - freeing a volume removes the first equal record;
  - the snapshot writer is only recorded as called;
  - conversion and encoding are function parameters;
  - memory release is not modelled.
- The state-name string passed to `allocate_instance` is not modelled. It still names PENDING after line 124 sets BOOTING.
- The IP fields of the run handler's local network block are not set before allocation. The model passes empty strings, and lines 139-140 overwrite them either way.
- Registry.Instance.Allocate: leaves the launch time unspecified, because how `allocate_instance` sets it is not part of this model.
- A platform with a 32-bit `unsigned long` is not modelled. There the capacity difference would be computed as a signed long long. The model assumes LP64 and computes it modulo 2^64.
- `DatabaseAuthProvider.java` is Hibernate session and key-generation code with no handler logic.

## Findings

| source | as written | input that shows it | evidently intended | confidence | as-written member | corrected member |
|---|---|---|---|---|---|---|
| node/handlers_xen.c:220-265 | every nonzero `fork()` result takes the parent branch, which ends in `kill(pid, 9)` and `wait` | `fork()` returns -1 while the handler runs as root (it is past the `getuid() != 0` test) | signal only a child that was created (pid > 0); as written `kill(-1, 9)` signals every process the controller may signal | high; not executed | `Console.GetConsoleOutput`, `Console.ForkFailureSignalsEveryone` | `Console.KillTarget`, `Console.GetConsoleOutputCorrected` |
