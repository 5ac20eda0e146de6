/** What is written down of an account: what it carries, has learned, has bound and has been sent. */
module Stored {
  import opened Wrappers

  /** A square, and the item and count in it. */
  type Item = (nat, (nat, nat))

  /** One material per category, primary first, `None` for a gap. */
  type Materials = seq<Option<nat>>

  /** What is left of a stack's durability, and what it teaches. */
  datatype Detail = Detail(durability: Option<nat>, teaches: Option<nat>)

  datatype Progress = Progress(
    details: seq<(nat, Detail)>, materials: seq<(nat, Materials)>, minted: seq<(nat, nat)>, recipes: seq<nat>)

  /** A hotbar square and hand, and the item bound there. */
  type Binding = ((nat, nat), nat)

  datatype Mail = Mail(uuid: string, subject: string, body: string, flags: nat, attachments: seq<Item>)

  datatype Device = Device(name: string, position: (nat, nat, nat))

  /** A chunk and a voxel of it. */
  type Voxel = ((nat, nat, nat), (nat, nat, nat))

  datatype Photo = Photo(bytes: seq<nat>, capturedAt: nat)
}
