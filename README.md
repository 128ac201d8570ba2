# Thread management core, modelled in Dafny

The system manages two kinds of worker threads. Sender workers put timestamped messages on a shared, unbounded FIFO queue. Receiver workers take messages off that queue. Each worker has a persisted record: an id, a type (SENDER or RECEIVER), a state (RUNNING or STOPPED) and a priority. Services create workers in bulk and update or delete their records. They also keep an in-memory registry from worker id to running task.

A running task loops. On each round it checks whether its record still exists and is RUNNING, and it stops itself if not. It also takes on the record's priority.

This project models:

- the three repositories over the record table, with their null-argument, not-found and partial-merge rules and their state and type filters;
- the entity/DTO mapper;
- the sender and receiver lifecycle services, as classes over the table, the registry and the shared queue;
- the bulk builder of ThreadManagerService;
- the queue paging of MessageQueueService.

## How the model is organised

| file | module | models |
|---|---|---|
| wrappers.dfy | Wrappers | `Option`, standing for a Java null or an empty `Optional` |
| threads.dfy | Threads | records, DTOs, enums, the priority bounds of `java.lang.Thread`, exceptions as an `Outcome`, `ResponseEntity` as a `Response`, UUID text |
| thread_mapper.dfy | ThreadMapper | IThreadMapperImpl |
| store.dfy | Store | the JPA table: `findById`, `save` (an upsert), `saveAll`, `deleteById` and the null-skipping merge the update methods perform |
| thread_queries.dfy | ThreadQueries | the stream filters of the repositories |
| sender_thread_repository.dfy | SenderThreadRepository | SenderThreadRepository.java (it throws exceptions) |
| receiver_thread_repository.dfy | ReceiverThreadRepository | ReceiverThreadRepository.java (ok / badRequest responses) |
| thread_repository.dfy | ThreadRepository | ThreadRepository.java (ok / badRequest responses) |
| lifecycle.dfy | Lifecycle | shared pieces of both lifecycle services: the liveness check, the start rule, the worker batches and the registry's scheduling |
| shared_queue.dfy | SharedQueue | the `LinkedBlockingQueue<String>` bean (`put`, `poll`) |
| sender_thread_service.dfy | SenderThreadService | SenderThreadService.java |
| receiver_thread_service.dfy | ReceiverThreadService | ReceiverThreadService.java |
| thread_manager_service.dfy | ThreadManagerService | createThread and createSenderReceiverThreadsWithAmount |
| message_queue_service.dfy | MessageQueueService | getQueuePage |

### Representation choices

- **Table.** The table is a sequence of entities in `findAll` order, with distinct ids. The filters' "store order" is therefore the sequence order.
- **Repository operations.** Each is a function from the table to a `Step(result, table)`.
- **Ids.** A UUID is a natural number. `UUID.randomUUID()` is a counter `nextId` kept by each service, with the invariant that every stored id is below it. `IdText` stands for `UUID.toString()`: decimal digits, or "null".
- **Registry.** The registry is a `map<Uuid, Task>`. A `Task` is a fresh handle, the `lastProcessTime` of its loop and the priority the thread last took on. Scheduling a worker is `registry[id := Task(fresh handle, now, none)]`, an overwrite, as `Map.put` is.
- **Task rounds.** One round of a task's `while` loop is the method `Tick`. The clock is its parameter `now`, and the sender's formatted timestamp is its parameter `timestamp`.
- **Round outcomes.** The liveness rule (`Lifecycle.Check`) decides each round:
  - an absent or STOPPED record removes the id from the registry and ends the loop;
  - a null priority, or one outside [MIN_PRIORITY, MAX_PRIORITY], makes `Thread.setPriority` throw an exception the loop does not catch, so the task ends and its registry entry stays;
  - otherwise the task takes on the priority and continues.
- **Paging arithmetic.** Java `int` arithmetic in getQueuePage is modelled explicitly by `MessageQueueService.Wrap`.

## Model

| member | source | states |
|---|---|---|
| ThreadMapper.Dto | target/generated-sources/annotations/com/example/threadmanagement/model/mapper/interfaces/IThreadMapperImpl.java:32-39 | toDto copies id, type, state and priority unchanged |
| ThreadMapper.Entity | target/generated-sources/annotations/com/example/threadmanagement/model/mapper/interfaces/IThreadMapperImpl.java:48-55 | toEntity sets all four fields of the new entity from the DTO |
| ThreadMapper.ToDto | target/generated-sources/annotations/com/example/threadmanagement/model/mapper/interfaces/IThreadMapperImpl.java:22-40 | null maps to null (both directions of the iff); otherwise the field copy |
| ThreadMapper.ToEntity | target/generated-sources/annotations/com/example/threadmanagement/model/mapper/interfaces/IThreadMapperImpl.java:43-56 | null maps to null (both directions of the iff); otherwise the field copy |
| ThreadMapper.DtoRoundTrip | target/generated-sources/annotations/com/example/threadmanagement/model/mapper/interfaces/IThreadMapperImpl.java:22-56 | toDto(toEntity(d)) == d, null included |
| ThreadMapper.EntityRoundTrip | target/generated-sources/annotations/com/example/threadmanagement/model/mapper/interfaces/IThreadMapperImpl.java:22-56 | toEntity(toDto(e)) == e, null included |
| ThreadMapper.DtoList | target/generated-sources/annotations/com/example/threadmanagement/model/mapper/interfaces/IThreadMapperImpl.java:64-69 | same length, element k is the copy of element k |
| ThreadMapper.EntityList | target/generated-sources/annotations/com/example/threadmanagement/model/mapper/interfaces/IThreadMapperImpl.java:78-83 | same length, element k is the copy of element k |
| ThreadMapper.ListRoundTrip | target/generated-sources/annotations/com/example/threadmanagement/model/mapper/interfaces/IThreadMapperImpl.java:58-84 | both list conversions invert each other |
| ThreadMapper.ListsDistribute | target/generated-sources/annotations/com/example/threadmanagement/model/mapper/interfaces/IThreadMapperImpl.java:64-83 | both list conversions distribute over concatenation, so they keep order |
| ThreadMapper.ToDtoList | target/generated-sources/annotations/com/example/threadmanagement/model/mapper/interfaces/IThreadMapperImpl.java:58-70 | the loop: null gives null; otherwise the same length, with each element mapped by toDto in order |
| ThreadMapper.ToEntityList | target/generated-sources/annotations/com/example/threadmanagement/model/mapper/interfaces/IThreadMapperImpl.java:72-84 | the loop: null gives null; otherwise the same length, with each element mapped by toEntity in order |
| Store.Find | src/main/java/com/example/threadmanagement/domain/repository/SenderThreadRepository.java:157-158 | findById: a result is a stored row with that id; empty exactly when no row has the id |
| Store.FindRow | src/main/java/com/example/threadmanagement/domain/repository/SenderThreadRepository.java:157-158 | in a table with distinct ids, every row is what findById returns for its id |
| Store.Save | src/main/java/com/example/threadmanagement/domain/repository/SenderThreadRepository.java:172 | save: afterwards the id finds the saved entity and every other id finds what it found before; a new id appends one row |
| Store.SaveValid | src/main/java/com/example/threadmanagement/domain/repository/SenderThreadRepository.java:172 | saving a complete entity keeps ids distinct and rows complete |
| Store.SaveAllValid | src/main/java/com/example/threadmanagement/domain/repository/SenderThreadRepository.java:35 | saveAll of complete entities keeps ids distinct and rows complete |
| Store.SaveAllFresh | src/main/java/com/example/threadmanagement/domain/repository/SenderThreadRepository.java:35 | saveAll of entities with fresh distinct ids appends them in order |
| Store.AppendValid | src/main/java/com/example/threadmanagement/domain/repository/SenderThreadRepository.java:35 | appending complete entities with fresh distinct ids keeps the table well formed |
| Store.DeleteById | src/main/java/com/example/threadmanagement/domain/repository/SenderThreadRepository.java:122 | deleteById: the id no longer finds anything; every other id finds what it found before; no row is invented |
| Store.DeleteValid | src/main/java/com/example/threadmanagement/domain/repository/SenderThreadRepository.java:122 | deleting keeps the table well formed |
| Store.Merge | src/main/java/com/example/threadmanagement/domain/repository/SenderThreadRepository.java:160-171 | each of state, priority and type is overwritten only when the input field is non-null; the id is kept; a complete record stays complete |
| Store.MergeIdempotent | src/main/java/com/example/threadmanagement/domain/repository/SenderThreadRepository.java:160-171 | applying the same update twice equals applying it once |
| Store.KeysKept | src/main/java/com/example/threadmanagement/domain/repository/SenderThreadRepository.java:172 | an update that creates no new id keeps every id below the fresh-id counter |
| ThreadQueries.Select | src/main/java/com/example/threadmanagement/domain/repository/SenderThreadRepository.java:86-90 | a filter result holds exactly the matching elements and is no longer than its input |
| ThreadQueries.SelectIdentity | src/main/java/com/example/threadmanagement/domain/repository/SenderThreadRepository.java:71-73 | a filter that tests nothing returns its input |
| ThreadQueries.SelectAppend | src/main/java/com/example/threadmanagement/domain/repository/SenderThreadRepository.java:86-90 | filtering distributes over concatenation, so store order is kept |
| ThreadQueries.SelectCounts | src/main/java/com/example/threadmanagement/domain/repository/SenderThreadRepository.java:86-90 | each matching element is kept with its multiplicity; the others are dropped |
| ThreadQueries.SelectChained | src/main/java/com/example/threadmanagement/domain/repository/ThreadRepository.java:87-99 | a type filter followed by a state filter equals the single combined filter |
| ThreadQueries.SelectIdempotent | src/main/java/com/example/threadmanagement/domain/repository/SenderThreadRepository.java:86-90 | filtering twice equals filtering once |
| ThreadQueries.StatePartition | src/main/java/com/example/threadmanagement/domain/repository/SenderThreadRepository.java:84-112 | with every state set, the RUNNING and STOPPED filters split the list (length and multiset) |
| SenderThreadRepository.CreateSenderThreadsWithList | src/main/java/com/example/threadmanagement/domain/repository/SenderThreadRepository.java:31-42 | succeeds (true) iff every row can be stored, with the table then saveAll of the mapped list; otherwise the wrapping ThreadManagementException and no change |
| SenderThreadRepository.GetSenderThreadById | src/main/java/com/example/threadmanagement/domain/repository/SenderThreadRepository.java:50-63 | a null id is rejected by findById and reaches the general handler, giving the wrapping ThreadManagementException; an unknown id gives an empty result, not an error; a result carries the id and is one of getAllSenderThreads |
| SenderThreadRepository.GetActiveSenderThreads | src/main/java/com/example/threadmanagement/domain/repository/SenderThreadRepository.java:84-95 | exactly the RUNNING records |
| SenderThreadRepository.GetPassiveSenderThreads | src/main/java/com/example/threadmanagement/domain/repository/SenderThreadRepository.java:101-112 | exactly the STOPPED records |
| SenderThreadRepository.ActivePassivePartition | src/main/java/com/example/threadmanagement/domain/repository/SenderThreadRepository.java:84-112 | active and passive together are the full list (length and multiset) |
| SenderThreadRepository.DeleteSenderThreadById | src/main/java/com/example/threadmanagement/domain/repository/SenderThreadRepository.java:120-129 | the record is gone, the others are untouched and the id is returned; a null id gives ThreadNotFoundException |
| SenderThreadRepository.DeleteAllSenderThreads | src/main/java/com/example/threadmanagement/domain/repository/SenderThreadRepository.java:136-145 | the table is empty and the result is true |
| SenderThreadRepository.UpdateSenderThread | src/main/java/com/example/threadmanagement/domain/repository/SenderThreadRepository.java:153-183 | a null DTO and a null id both give the wrapping exception; an unknown id gives ThreadNotFoundException; none of the three changes anything; otherwise the stored record becomes the merge, others are untouched and the input is returned |
| SenderThreadRepository.UpdateSenderThreadPriority | src/main/java/com/example/threadmanagement/domain/repository/SenderThreadRepository.java:191-216 | a null priority gives "Priority Can't Be Null"; a null id gives findById's translated exception, which neither handler catches; an unknown id gives ThreadNotFoundException; all three change nothing; otherwise only that record's priority changes and the id is returned |
| SenderThreadRepository.UpdateSenderThreadState | src/main/java/com/example/threadmanagement/domain/repository/SenderThreadRepository.java:224-249 | a null state gives "Thread State Can't Be Null"; a null id gives findById's translated exception, which neither handler catches; an unknown id gives ThreadNotFoundException; all three change nothing; otherwise only that record's state changes and the id is returned |
| ReceiverThreadRepository.CreateReceiverThread | src/main/java/com/example/threadmanagement/domain/repository/ReceiverThreadRepository.java:28-38 | a null DTO reaches save(null), whose translated exception propagates; a storable DTO is saved and returned in an ok response; a failing save propagates |
| ReceiverThreadRepository.CreateReceiverThreadsWithList | src/main/java/com/example/threadmanagement/domain/repository/ReceiverThreadRepository.java:40-51 | true iff every row can be stored, with the table then saveAll of the mapped list; otherwise the failure propagates and nothing changes |
| ReceiverThreadRepository.GetReceiverThreadById | src/main/java/com/example/threadmanagement/domain/repository/ReceiverThreadRepository.java:53-56 | a null id gives findById's translated exception; an unknown id gives an empty result; a result carries the id and is one of the full list |
| ReceiverThreadRepository.GetActiveReceiverThreads | src/main/java/com/example/threadmanagement/domain/repository/ReceiverThreadRepository.java:69-80 | exactly the RUNNING records |
| ReceiverThreadRepository.GetPassiveReceiverThreads | src/main/java/com/example/threadmanagement/domain/repository/ReceiverThreadRepository.java:82-93 | exactly the STOPPED records |
| ReceiverThreadRepository.ActivePassivePartition | src/main/java/com/example/threadmanagement/domain/repository/ReceiverThreadRepository.java:69-93 | active and passive together are the full list (length and multiset) |
| ReceiverThreadRepository.DeleteReceiverThreadById | src/main/java/com/example/threadmanagement/domain/repository/ReceiverThreadRepository.java:95-104 | an ok message containing the id, with only that record gone; a null id gives deleteById's translated exception, which the handler does not catch, and changes nothing |
| ReceiverThreadRepository.DeleteAllReceiverThreads | src/main/java/com/example/threadmanagement/domain/repository/ReceiverThreadRepository.java:106-115 | empties the table with an ok message |
| ReceiverThreadRepository.UpdateReceiverThread | src/main/java/com/example/threadmanagement/domain/repository/ReceiverThreadRepository.java:117-147 | a null DTO's NullPointerException and a null id's translated findById exception are rethrown; an unknown id gives badRequest "Receiver Thread Not Found"; none of these changes anything; otherwise it merges the record and returns an ok message containing the id |
| ReceiverThreadRepository.UpdateReceiverThreadPriority | src/main/java/com/example/threadmanagement/domain/repository/ReceiverThreadRepository.java:149-174 | badRequest "Priority Can't Be Null" or "Receiver Thread Not Found", and a null id findById's translated exception, all with no change; otherwise only the priority changes, with an ok response |
| ReceiverThreadRepository.UpdateReceiverThreadState | src/main/java/com/example/threadmanagement/domain/repository/ReceiverThreadRepository.java:176-201 | badRequest "Receiver Thread State Can't Be Null" or "Receiver Thread Not Found", and a null id findById's translated exception, all with no change; otherwise only the state changes, with an ok response |
| ThreadRepository.CreateThread | src/main/java/com/example/threadmanagement/domain/repository/ThreadRepository.java:27-37 | a storable record is saved and returned unchanged in an ok response; null reaches save(null), whose translated exception propagates |
| ThreadRepository.CreateSenderReceiverThreadsWithAmount | src/main/java/com/example/threadmanagement/domain/repository/ThreadRepository.java:39-50 | true iff every row can be stored, with the table then saveAll of the list |
| ThreadRepository.GetThreadById | src/main/java/com/example/threadmanagement/domain/repository/ThreadRepository.java:52-56 | fails with "Thread not found." exactly when no record has the id; a null id gives findById's translated exception; a result carries the id |
| ThreadRepository.IsThreadAlive | src/main/java/com/example/threadmanagement/domain/repository/ThreadRepository.java:58-61 | empty exactly when no record has the id, and otherwise the same record getThreadById returns; a null id gives findById's translated exception |
| ThreadRepository.GetAllThreads | src/main/java/com/example/threadmanagement/domain/repository/ThreadRepository.java:63-72 | an ok response whose body is the DTO of each record, in table order |
| ThreadRepository.OfTypeInState | src/main/java/com/example/threadmanagement/domain/repository/ThreadRepository.java:87-99 | exactly the records of that type and state |
| ThreadRepository.GetAllSenderThreads | src/main/java/com/example/threadmanagement/domain/repository/ThreadRepository.java:74-85 | exactly the SENDER records |
| ThreadRepository.GetActiveSenderThreads | src/main/java/com/example/threadmanagement/domain/repository/ThreadRepository.java:87-99 | exactly the RUNNING SENDER records |
| ThreadRepository.GetPassiveSenderThreads | src/main/java/com/example/threadmanagement/domain/repository/ThreadRepository.java:101-113 | exactly the STOPPED SENDER records |
| ThreadRepository.GetAllReceiverThreads | src/main/java/com/example/threadmanagement/domain/repository/ThreadRepository.java:115-126 | exactly the RECEIVER records |
| ThreadRepository.GetActiveReceiverThreads | src/main/java/com/example/threadmanagement/domain/repository/ThreadRepository.java:128-140 | exactly the RUNNING RECEIVER records |
| ThreadRepository.GetPassiveReceiverThreads | src/main/java/com/example/threadmanagement/domain/repository/ThreadRepository.java:142-154 | exactly the STOPPED RECEIVER records |
| ThreadRepository.StatesSplitType | src/main/java/com/example/threadmanagement/domain/repository/ThreadRepository.java:74-154 | within one type, the RUNNING and STOPPED queries split the type's records (length and multiset) |
| ThreadRepository.TypesSplitTable | src/main/java/com/example/threadmanagement/domain/repository/ThreadRepository.java:74-126 | with every type set, the SENDER and RECEIVER filters split the list |
| ThreadRepository.SendersAndReceiversCoverTable | src/main/java/com/example/threadmanagement/domain/repository/ThreadRepository.java:74-126 | the sender and receiver queries together count every record |
| ThreadRepository.DeleteThreadById | src/main/java/com/example/threadmanagement/domain/repository/ThreadRepository.java:156-165 | an ok message containing the id, with only that record gone; null gives deleteById's translated exception, which the handler does not catch, and changes nothing |
| ThreadRepository.DeleteAllThreads | src/main/java/com/example/threadmanagement/domain/repository/ThreadRepository.java:167-176 | empties the table with an ok message |
| ThreadRepository.UpdateThread | src/main/java/com/example/threadmanagement/domain/repository/ThreadRepository.java:178-208 | a null DTO's NullPointerException and a null id's translated findById exception are rethrown; an unknown id gives badRequest "Thread Not Found"; none of these changes anything; otherwise it merges non-null fields and gives an ok message with the id |
| ThreadRepository.UpdateThreadPriority | src/main/java/com/example/threadmanagement/domain/repository/ThreadRepository.java:210-235 | badRequest "Priority Can't Be Null" or "Entity Not Found", and a null id findById's translated exception, all with no change; otherwise only the priority changes |
| ThreadRepository.UpdateThreadState | src/main/java/com/example/threadmanagement/domain/repository/ThreadRepository.java:237-262 | badRequest "Thread State Can't Be Null" or "Entity Not Found", and a null id findById's translated exception, all with no change; otherwise only the state changes |
| Lifecycle.Check | src/main/java/com/example/threadmanagement/domain/service/SenderThreadService.java:215-222 | a round ends the loop iff the record is absent or STOPPED; it adopts exactly a valid priority, and otherwise setPriority throws |
| Lifecycle.Batch | src/main/java/com/example/threadmanagement/domain/service/SenderThreadService.java:43-46 | n workers, the i-th with the i-th fresh id, the given type, RUNNING and NORM_PRIORITY |
| Lifecycle.Ids | src/main/java/com/example/threadmanagement/domain/service/SenderThreadService.java:50-54 | the ids of a list of workers, in order |
| Lifecycle.BatchStorable | src/main/java/com/example/threadmanagement/domain/service/SenderThreadService.java:43-48 | a fresh batch has new distinct ids and storable rows, and the counter stays ahead of the enlarged table |
| Lifecycle.ScheduleAllEffect | src/main/java/com/example/threadmanagement/domain/service/SenderThreadService.java:50-54 | scheduling a list of ids registers exactly those ids (plus the old entries), each with a fresh handle and the start time, and leaves the other entries alone |
| Lifecycle.RunningIds | src/main/java/com/example/threadmanagement/domain/service/SenderThreadService.java:184-188 | the ids of the active list are exactly the ids of RUNNING records |
| Lifecycle.RunningWorkerIds | src/main/java/com/example/threadmanagement/domain/service/SenderThreadService.java:184-188 | contains an id iff its record exists and is RUNNING |
| SharedQueue.BlockingQueue.Put | src/main/java/com/example/threadmanagement/domain/service/SenderThreadService.java:209 | appends the message at the tail |
| SharedQueue.BlockingQueue.Poll | src/main/java/com/example/threadmanagement/domain/service/ReceiverThreadService.java:190 | takes the head when there is one; on an empty queue it returns null and changes nothing |
| SharedQueue.BlockingQueue.constructor | src/main/java/com/example/threadmanagement/config/ThreadConfig.java:27-30 | the queue starts empty and is unbounded |
| SenderThreadService.SenderThreadService.constructor | src/main/java/com/example/threadmanagement/domain/service/SenderThreadService.java:19-26 | starts with the given table and an empty registry |
| SenderThreadService.SenderThreadService.RunSenderThreadLifeCycle | src/main/java/com/example/threadmanagement/domain/service/SenderThreadService.java:200-235 | registers a task with a fresh handle under the id |
| SenderThreadService.SenderThreadService.CreateSenderThreadsWithAmount | src/main/java/com/example/threadmanagement/domain/service/SenderThreadService.java:35-60 | a null amount throws IllegalArgumentException and changes nothing; otherwise it returns the batch of max(n, 0) fresh RUNNING senders, persists them in one saveAll and then schedules exactly their ids |
| SenderThreadService.SenderThreadService.UpdateSenderThread | src/main/java/com/example/threadmanagement/domain/service/SenderThreadService.java:68-86 | a null DTO throws NullPointerException before any lookup, a null id fails in the lookup with the wrapping exception and an unknown id throws IllegalArgumentException, all changing nothing; otherwise it applies the repository update and schedules iff the requested state is RUNNING and the stored one is not |
| SenderThreadService.SenderThreadService.UpdateSenderThreadState | src/main/java/com/example/threadmanagement/domain/service/SenderThreadService.java:95-113 | the same, for a state update, and it returns the id |
| SenderThreadService.SenderThreadService.UpdateSenderThreadPriority | src/main/java/com/example/threadmanagement/domain/service/SenderThreadService.java:121-126 | persists the priority; the registry is unchanged |
| SenderThreadService.SenderThreadService.DeleteSenderThreadById | src/main/java/com/example/threadmanagement/domain/service/SenderThreadService.java:158-164 | deletes through the repository; the registry is unchanged |
| SenderThreadService.SenderThreadService.DeleteAllSenderThreads | src/main/java/com/example/threadmanagement/domain/service/SenderThreadService.java:170-176 | empties the table; the registry is unchanged |
| SenderThreadService.SenderThreadService.StartSenderThreadsLifeCycle | src/main/java/com/example/threadmanagement/domain/service/SenderThreadService.java:182-192 | schedules exactly one task for each RUNNING record and returns true |
| SenderThreadService.SenderThreadService.Tick | src/main/java/com/example/threadmanagement/domain/service/SenderThreadService.java:205-223 | a message "Data from sender <id> at <time>" is appended exactly when a period has passed, restarting the clock; then an absent or STOPPED record removes the id and terminates, an invalid priority crashes the task, and otherwise the priority is adopted |
| SenderThreadService.DeletedWorkerStops | src/main/java/com/example/threadmanagement/domain/service/SenderThreadService.java:215-220 | after deleting a worker, its task's next round terminates (that round still puts its message first when one is due, as Tick states) |
| SenderThreadService.StoppedWorkerStops | src/main/java/com/example/threadmanagement/domain/service/SenderThreadService.java:215-220 | after setting a worker STOPPED, its task's next round terminates |
| SenderThreadService.PriorityReachesTask | src/main/java/com/example/threadmanagement/domain/service/SenderThreadService.java:222 | a priority written to a RUNNING worker is adopted by its task's next round if it lies in [1, 10], and crashes that task otherwise |
| ReceiverThreadService.ReceiverThreadService.constructor | src/main/java/com/example/threadmanagement/domain/service/ReceiverThreadService.java:19-24 | starts with the given table and an empty registry |
| ReceiverThreadService.ReceiverThreadService.RunReceiverThreadLifeCycle | src/main/java/com/example/threadmanagement/domain/service/ReceiverThreadService.java:175-206 | registers a task with a fresh handle under the id |
| ReceiverThreadService.ReceiverThreadService.CreateReceiverThreadsWithAmount | src/main/java/com/example/threadmanagement/domain/service/ReceiverThreadService.java:32-53 | a null amount throws IllegalArgumentException and changes nothing; otherwise max(n, 0) fresh RUNNING receivers are returned, persisted together, then each scheduled |
| ReceiverThreadService.ReceiverThreadService.UpdateReceiverThread | src/main/java/com/example/threadmanagement/domain/service/ReceiverThreadService.java:61-75 | a null DTO throws NullPointerException before any lookup, a null id fails in the lookup with findById's translated exception and an unknown id throws IllegalArgumentException, all changing nothing; otherwise it schedules iff the state becomes RUNNING from not RUNNING (before persisting), then returns the repository's update result |
| ReceiverThreadService.ReceiverThreadService.UpdateReceiverThreadState | src/main/java/com/example/threadmanagement/domain/service/ReceiverThreadService.java:84-98 | persists the state first, schedules only on a move to RUNNING and returns the given id |
| ReceiverThreadService.ReceiverThreadService.UpdateReceiverThreadPriority | src/main/java/com/example/threadmanagement/domain/service/ReceiverThreadService.java:106-109 | the repository's priority update; the registry is unchanged |
| ReceiverThreadService.ReceiverThreadService.DeleteReceiverThreadById | src/main/java/com/example/threadmanagement/domain/service/ReceiverThreadService.java:140-143 | the repository's delete; the registry is unchanged |
| ReceiverThreadService.ReceiverThreadService.DeleteAllReceiverThreads | src/main/java/com/example/threadmanagement/domain/service/ReceiverThreadService.java:149-152 | the repository's delete-all; the registry is unchanged |
| ReceiverThreadService.ReceiverThreadService.StartReceiverThreadsLifeCycle | src/main/java/com/example/threadmanagement/domain/service/ReceiverThreadService.java:158-166 | schedules exactly one task for each RUNNING record and returns true |
| ReceiverThreadService.ReceiverThreadService.Tick | src/main/java/com/example/threadmanagement/domain/service/ReceiverThreadService.java:178-196 | the liveness check comes first: an absent or STOPPED record removes the id and terminates without touching the queue; on a live, due round the head is removed if present, and the clock restarts only if an item was taken |
| ReceiverThreadService.DeletedWorkerStops | src/main/java/com/example/threadmanagement/domain/service/ReceiverThreadService.java:179-185 | after deleting a worker, its task's next round terminates |
| ReceiverThreadService.StoppedWorkerStops | src/main/java/com/example/threadmanagement/domain/service/ReceiverThreadService.java:179-185 | after setting a worker STOPPED, its task's next round terminates |
| ThreadManagerService.Group | src/main/java/com/example/threadmanagement/domain/service/ThreadManagerService.java:35-47 | the i-th record of a group has the i-th fresh id, the group's type, RUNNING and priority amount − i |
| ThreadManagerService.PlanShape | src/main/java/com/example/threadmanagement/domain/service/ThreadManagerService.java:35-47 | the list has max(s, 0) + max(r, 0) records, all senders before all receivers, all RUNNING with distinct fresh ids, and priorities strictly decreasing from the amount down to 1 in each group |
| ThreadManagerService.PlanStorable | src/main/java/com/example/threadmanagement/domain/service/ThreadManagerService.java:35-49 | the built list can be appended to the table as it is |
| ThreadManagerService.ThreadManagerService.constructor | src/main/java/com/example/threadmanagement/domain/service/ThreadManagerService.java:20-25 | starts with the given table |
| ThreadManagerService.ThreadManagerService.CreateThread | src/main/java/com/example/threadmanagement/domain/service/ThreadManagerService.java:27-31 | the caller's id is replaced by a fresh one before the record is stored; null throws NullPointerException |
| ThreadManagerService.ThreadManagerService.CreateSenderReceiverThreadsWithAmount | src/main/java/com/example/threadmanagement/domain/service/ThreadManagerService.java:33-50 | stores exactly the built list and returns the repository's result, true |
| MessageQueueService.Wrap | src/main/java/com/example/threadmanagement/domain/service/MessageQueueService.java:24-25 | the 32-bit value of an int expression, agreeing with the exact value when that fits |
| MessageQueueService.GetQueuePage | src/main/java/com/example/threadmanagement/domain/service/MessageQueueService.java:22-37 | valid arguments always succeed; start > length gives the empty page; otherwise the content is the slice [start, min(start + size, length)) in FIFO order, at most size long, with the queue length as total (start == length gives empty content with that total) |
| MessageQueueService.GetQueuePageAsWritten | src/main/java/com/example/threadmanagement/domain/service/MessageQueueService.java:22-37 | the code with 32-bit int arithmetic: a successful, non-empty result still holds at most size messages |
| MessageQueueService.QueuePage | src/main/java/com/example/threadmanagement/domain/service/MessageQueueService.java:22-23 | with the corrected arithmetic, it pages a snapshot of the shared queue, which is read and not modified: a valid request gets the empty page or a run of messages starting at page·size; whenever page·size and page·size + size fit in an int, this is also the answer of the code as written |
| MessageQueueService.AsWrittenAgreesWithoutOverflow | src/main/java/com/example/threadmanagement/domain/service/MessageQueueService.java:24-25 | when page·size and start + size fit in an int, the code as written equals the corrected function |
| MessageQueueService.OverflowServesFirstPage | src/main/java/com/example/threadmanagement/domain/service/MessageQueueService.java:24-29 | page = size = 65536 on a one-message queue: the code as written serves the message, the corrected function the empty page |
| MessageQueueService.PagesArePrefix | src/main/java/com/example/threadmanagement/domain/service/MessageQueueService.java:24-33 | the first n pages of a fixed size hold the first n·size messages, in order |
| MessageQueueService.PagesCoverQueue | src/main/java/com/example/threadmanagement/domain/service/MessageQueueService.java:24-33 | paging through with any fixed size yields every message exactly once, in FIFO order |

## Left out

- Real concurrency is not modelled: the executor, `Future.cancel`, interruption, `Thread.sleep` and the race between `submit` and the registry `put`. A task is registered before its first round, and rounds are separate `Tick` calls.
- A worker scheduled again while its old task still runs overwrites its registry entry; the superseded task is not tracked. No at-most-one-task invariant is claimed.
- Thread priorities are not applied to real threads; the priority a round takes on is recorded in the registry entry.
- WebSocket notifications, `broadcastQueueUpdate` and logging are left out; they change no modelled state.
- Wall-clock time and `SimpleDateFormat` are left out: the time is the `now` parameter and the formatted text the `timestamp` parameter.
- The get* methods of the two lifecycle services and the getThreadById, updateThread, getAllThreadsInfo and deleteThreadById methods of ThreadManagerService are plain delegations to the repositories, which are modelled; they are not repeated.
- Null elements inside a list and a null list argument to the repositories are not modelled; the lists are sequences of DTOs.
- A storage failure is modelled only where it is determined by the data: a row with a missing field (the entity columns are non-null). Database and connection failures are left out.
- The `==` comparisons of `Integer` and enum values are modelled as value comparisons.
- The receiver service's updateReceiverThreadPriority, deleteReceiverThreadById and deleteAllReceiverThreads declare `UUID` or `Boolean` results but return the repository's `ResponseEntity<String>`; the model returns that response.
- A null id or entity passed to `findById`, `deleteById` or `save` fails Spring Data's null assertion. The repository proxy translates that IllegalArgumentException into InvalidDataAccessApiUsageException, so only a `catch (Exception)` block catches it; `catch (IllegalArgumentException)` blocks let it through. The Spring classes themselves are not part of this model.
- `Tick` describes a round of a live task. After a Crashed round the task has ended although its registry entry stays, and the model does not mark that entry as finished.
- `PageImpl`'s total follows Spring Data's rule: when a non-empty page reaches past the given total, the total is the page offset plus the content size.
- `UUID.randomUUID()` is a per-service counter, so fresh ids are distinct by construction rather than with high probability.
- MessageQueueService.QueuePage: it follows the corrected GetQueuePage, so it agrees with the code as written only while page·size and page·size + size fit in an int. Past that point an overflowing start gives the empty page, whereas the code as written serves the page its wrapped start selects (see Findings).
- MessageQueueService.GetQueuePageAsWritten: only the size bound is stated about the code as written; its full behaviour is its definition, and the corrected GetQueuePage carries the promised contract.

## Findings

| source | as written | input that shows it | evidently intended | confidence | as-written member | corrected member |
|---|---|---|---|---|---|---|
| src/main/java/com/example/threadmanagement/domain/service/MessageQueueService.java:24-29 | `start = page * size` and `start + size` are computed in 32-bit `int` and can wrap around, so a page far past the end can be served as an earlier page | page = 65536, size = 65536, queue ["m"]: start wraps to 0, and page ["m"] is returned with total 4294967297 | start and end computed without overflow, so any page past the end is the empty page | not executed | MessageQueueService.GetQueuePageAsWritten | MessageQueueService.GetQueuePage |
