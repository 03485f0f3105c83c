/**
 * The editor's content state as the exporter reads it: blocks with their
 * text and their style and entity ranges, and the positional commands
 * that the command compiler derives from them.
 */
module Content {
  import opened RubyValues

  /** `{offset:, length:, style:}`; the style id is any Ruby value. */
  datatype StyleRange = StyleRange(offset: int, length: int, style: Value)

  /** `{offset:, length:, key:}`; the key is an integer, string or symbol. */
  datatype EntityRange = EntityRange(offset: int, length: int, key: Value)

  /**
   * One block.  Each field records whether the key was absent, present
   * with nil, or present, because the exporter reads them with `fetch`,
   * `fetch` with a default, and `[]`, which tell those cases apart.
   * `key` and `depth` are never read and are left out.
   */
  datatype Block = Block(
    blockType: Field<string>,
    text: Field<string>,
    inlineStyleRanges: Field<seq<StyleRange>>,
    entityRanges: Field<seq<EntityRange>>,
    data: Field<map<Value, Value>>)

  /** The whole input: `{blocks:, entityMap:}`. */
  datatype ContentState = ContentState(blocks: Field<seq<Block>>, entityMap: Field<map<Value, Value>>)

  datatype CommandName =
    | StartText | StopText
    | StartInlineStyle | StopInlineStyle
    | StartEntity | StopEntity

  /** `Command.new(name, index, data)`; text markers carry nil data. */
  datatype Command = Command(name: CommandName, index: int, data: Value)

  /** `block.fetch(:type, 'unstyled')`. */
  function BlockType(block: Block): (t: Value)
    ensures block.blockType.Missing? ==> t == Str("unstyled")
    ensures block.blockType.Present? ==> t == Str(block.blockType.value)
    ensures block.blockType.NilField? ==> t == Nil
  {
    match block.blockType
    case Missing => Str("unstyled")
    case NilField => Nil
    case Present(s) => Str(s)
  }
}
