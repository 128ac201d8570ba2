/**
 * The MapStruct-generated IThreadMapperImpl: field-by-field copies between
 * the DTO and the entity, null in null out, and the list conversions that
 * apply them element by element in a loop.
 */
module ThreadMapper {
  import opened Wrappers
  import opened Threads

  /** The copy toDto makes of a non-null entity. */
  function Dto(e: ThreadEntity): (d: ThreadDto)
    ensures d.id == e.id && d.threadType == e.threadType
    ensures d.state == e.state && d.priority == e.priority
  {
    ThreadDto(e.id, e.threadType, e.state, e.priority)
  }

  /** The object toEntity fills through its setters from a non-null DTO. */
  function Entity(d: ThreadDto): (e: ThreadEntity)
    ensures e.id == d.id && e.threadType == d.threadType
    ensures e.state == d.state && e.priority == d.priority
  {
    ThreadEntity(d.id, d.threadType, d.state, d.priority)
  }

  /** toDto: null maps to null, otherwise a field copy. */
  function ToDto(entity: Option<ThreadEntity>): (dto: Option<ThreadDto>)
    ensures dto.None? <==> entity.None?
    ensures entity.Some? ==> dto == Some(Dto(entity.value))
  {
    match entity
    case None => None
    case Some(e) => Some(Dto(e))
  }

  /** toEntity: null maps to null, otherwise a field copy. */
  function ToEntity(dto: Option<ThreadDto>): (entity: Option<ThreadEntity>)
    ensures entity.None? <==> dto.None?
    ensures dto.Some? ==> entity == Some(Entity(dto.value))
  {
    match dto
    case None => None
    case Some(d) => Some(Entity(d))
  }

  lemma DtoRoundTrip(dto: Option<ThreadDto>)
    ensures ToDto(ToEntity(dto)) == dto
  {
  }

  lemma EntityRoundTrip(entity: Option<ThreadEntity>)
    ensures ToEntity(ToDto(entity)) == entity
  {
  }

  /** The list toDtoList builds, as a value. */
  function DtoList(es: seq<ThreadEntity>): (ds: seq<ThreadDto>)
    ensures |ds| == |es|
    ensures forall k | 0 <= k < |es| :: ds[k] == Dto(es[k])
  {
    seq(|es|, k requires 0 <= k < |es| => Dto(es[k]))
  }

  /** The list toEntityList builds, as a value. */
  function EntityList(ds: seq<ThreadDto>): (es: seq<ThreadEntity>)
    ensures |es| == |ds|
    ensures forall k | 0 <= k < |ds| :: es[k] == Entity(ds[k])
  {
    seq(|ds|, k requires 0 <= k < |ds| => Entity(ds[k]))
  }

  lemma ListRoundTrip(ds: seq<ThreadDto>, es: seq<ThreadEntity>)
    ensures DtoList(EntityList(ds)) == ds
    ensures EntityList(DtoList(es)) == es
  {
    assert forall k | 0 <= k < |ds| :: DtoList(EntityList(ds))[k] == ds[k];
    assert forall k | 0 <= k < |es| :: EntityList(DtoList(es))[k] == es[k];
  }

  /** Both list conversions distribute over concatenation, so they keep order. */
  lemma {:induction false} ListsDistribute(a: seq<ThreadEntity>, b: seq<ThreadEntity>, c: seq<ThreadDto>, d: seq<ThreadDto>)
    ensures DtoList(a + b) == DtoList(a) + DtoList(b)
    ensures EntityList(c + d) == EntityList(c) + EntityList(d)
  {
    assert forall k | 0 <= k < |a + b| :: DtoList(a + b)[k] == (DtoList(a) + DtoList(b))[k];
    assert forall k | 0 <= k < |c + d| :: EntityList(c + d)[k] == (EntityList(c) + EntityList(d))[k];
  }

  /** toDtoList: null maps to null, otherwise one toDto per element, in order. */
  method ToDtoList(entityList: Option<seq<ThreadEntity>>) returns (list: Option<seq<ThreadDto>>)
    ensures list.None? <==> entityList.None?
    ensures entityList.Some? ==> |list.value| == |entityList.value|
    ensures entityList.Some? ==> forall k | 0 <= k < |entityList.value| :: list.value[k] == Dto(entityList.value[k])
  {
    if entityList.None? {
      return None;
    }
    var source := entityList.value;
    var built: seq<ThreadDto> := [];
    for i := 0 to |source|
      invariant |built| == i
      invariant forall k | 0 <= k < i :: built[k] == Dto(source[k])
    {
      built := built + [Dto(source[i])];
    }
    list := Some(built);
  }

  /** toEntityList: null maps to null, otherwise one toEntity per element, in order. */
  method ToEntityList(dtoList: Option<seq<ThreadDto>>) returns (list: Option<seq<ThreadEntity>>)
    ensures list.None? <==> dtoList.None?
    ensures dtoList.Some? ==> |list.value| == |dtoList.value|
    ensures dtoList.Some? ==> forall k | 0 <= k < |dtoList.value| :: list.value[k] == Entity(dtoList.value[k])
  {
    if dtoList.None? {
      return None;
    }
    var source := dtoList.value;
    var built: seq<ThreadEntity> := [];
    for i := 0 to |source|
      invariant |built| == i
      invariant forall k | 0 <= k < i :: built[k] == Entity(source[k])
    {
      built := built + [Entity(source[i])];
    }
    list := Some(built);
  }
}
