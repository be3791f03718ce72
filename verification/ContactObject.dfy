/** The contact, updated in place (engine/src/Contact.cpp). */
module ContactObject {
  import opened Geometry
  import opened Bodies
  import Spec = ContactSpec

  /** A contact holds copies of its two bodies; the world writes them back. */
  class Contact {
    const length: Vec -> real
    var body0: Body
    var body1: Body
    var shape0: Shape
    var shape1: Shape
    var restitution0: real
    var restitution1: real
    var normal: Vec
    var restitution: real
    var penetration: real

    ghost function View(): Spec.Contact
      reads this
    {
      Spec.Contact(body0, body1, shape0, shape1, restitution0, restitution1, normal, restitution, penetration)
    }

    constructor (length: Vec -> real, c: Spec.Contact)
      ensures View() == c && this.length == length
    {
      this.length := length;
      body0, body1, shape0, shape1 := c.body0, c.body1, c.shape0, c.shape1;
      restitution0, restitution1 := c.restitution0, c.restitution1;
      normal, restitution, penetration := c.normal, c.restitution, c.penetration;
    }

    method SwapBodies()
      modifies this
      ensures View() == Spec.Swap(old(View()))
    {
      body0, body1 := body1, body0;
      shape0, shape1 := shape1, shape0;
      restitution0, restitution1 := restitution1, restitution0;
    }

    method Resolve()
      requires Spec.Weighable(View())
      modifies this
      ensures View() == Spec.Resolve(length, old(View()))
      decreases shape0.RectShape? && shape1.CircleShape?
    {
      if shape0.CircleShape? {
        MeasureCircle();
      } else if shape1.CircleShape? {
        SwapBodies();
        Resolve();
      } else {
        MeasureRects();
      }
      Finish();
    }

    /** The rest of `Resolve`, after the case distinction. */
    method Finish()
      requires Spec.Weighable(View())
      modifies this
      ensures View() == Spec.Finish(old(View()))
    {
      restitution := (body0.mass * restitution0 + body1.mass * restitution1) / (body0.mass + body1.mass);
      assert View() == Spec.MixRestitution(old(View()));
      ResolveVelocityAndInterpenetration();
      ResolveInterpenetration();
    }

    method MeasureCircle()
      requires shape0.CircleShape?
      modifies this`normal, this`penetration
      ensures View() == Spec.MeasureCircle(length, old(View()))
    {
      var center := body0.position.Plus(shape0.circle.center);
      if shape1.CircleShape? {
        SetNormal(center.Minus(body1.position).Minus(shape1.circle.center), shape0.circle.radius + shape1.circle.radius);
      } else {
        var r := shape1.rect;
        var closest := Vec(Clamp(center.x, r.min.x + body1.position.x, r.max.x + body1.position.x),
                           Clamp(center.y, r.min.y + body1.position.y, r.max.y + body1.position.y));
        SetNormal(center.Minus(closest), shape0.circle.radius);
      }
    }

    /** Normal and penetration from the vector between the shapes. */
    method SetNormal(delta: Vec, reach: real)
      modifies this`normal, this`penetration
      ensures normal == if length(delta) > 0.0 then Vec(delta.x / length(delta), delta.y / length(delta)) else UP
      ensures penetration == reach - length(delta)
    {
      var distance := length(delta);
      penetration := reach - distance;
      if distance > 0.0 {
        normal := Vec(delta.x / distance, delta.y / distance);
      } else {
        normal := UP;
      }
    }

    method MeasureRects()
      requires shape0.RectShape? && shape1.RectShape?
      modifies this`normal, this`penetration
      ensures View() == Spec.MeasureRects(old(View()))
    {
      var delta := body0.position.Plus(Middle(shape0.rect)).Minus(body1.position).Minus(Middle(shape1.rect));
      var p := HalfSize(shape0.rect).Plus(HalfSize(shape1.rect)).Minus(Vec(Abs(delta.x), Abs(delta.y)));
      if p.x < p.y {
        penetration := p.x;
        normal := if delta.x > 0.0 then Vec(1.0, 0.0) else Vec(-1.0, 0.0);
      } else {
        penetration := p.y;
        normal := if delta.y > 0.0 then Vec(0.0, 1.0) else Vec(0.0, -1.0);
      }
    }

    method ResolveVelocityAndInterpenetration()
      requires Spec.Weighable(View())
      modifies this`body0, this`body1
      ensures View() == Spec.ResolveVelocity(old(View()))
    {
      var separatingVelocity := body0.velocity.Minus(body1.velocity).Dot(normal);
      if separatingVelocity > 0.0 {
        return;
      }
      var newSeparatingVelocity := -separatingVelocity * restitution;
      var deltaVelocity := newSeparatingVelocity - separatingVelocity;
      var inverseMass1, inverseMass2 := 1.0 / body0.mass, 1.0 / body1.mass;
      var totalInverseMass := inverseMass1 + inverseMass2;
      if totalInverseMass <= 0.0 {
        return;
      }
      var impulsePerIMass := normal.Times(deltaVelocity / totalInverseMass);
      ghost var c := View();
      assert separatingVelocity == Spec.SeparatingVelocity(c);
      assert inverseMass1 == Spec.InverseMass(c.body0) && inverseMass2 == Spec.InverseMass(c.body1);
      assert impulsePerIMass == c.normal.Times(Spec.Impulse(c));
      var k0, k1 := body0.kind, body1.kind;
      if k0 == DYNAMIC {
        body0 := body0.(velocity := body0.velocity.Plus(impulsePerIMass.Times(inverseMass1)));
      }
      if k1 == DYNAMIC {
        body1 := body1.(velocity := body1.velocity.Minus(impulsePerIMass.Times(inverseMass2)));
      }
      if k0 == STATIC {
        body1 := body1.(velocity := body1.velocity.Minus(impulsePerIMass.Times(inverseMass1)));
      }
      if k1 == STATIC {
        body0 := body0.(velocity := body0.velocity.Plus(impulsePerIMass.Times(inverseMass2)));
      }
    }

    method ResolveInterpenetration()
      requires Spec.Weighable(View())
      modifies this`body0, this`body1
      ensures View() == Spec.ResolveInterpenetration(old(View()))
    {
      if penetration <= 0.0 {
        return;
      }
      var inverseMass1, inverseMass2 := 1.0 / body0.mass, 1.0 / body1.mass;
      var totalInverseMass := inverseMass1 + inverseMass2;
      if totalInverseMass <= 0.0 {
        return;
      }
      var movePerIMass := normal.Times(penetration / totalInverseMass);
      if body0.kind == DYNAMIC {
        body0 := body0.(position := body0.position.Plus(movePerIMass.Times(inverseMass1)));
      }
      if body1.kind == DYNAMIC {
        body1 := body1.(position := body1.position.Minus(movePerIMass.Times(inverseMass2)));
      }
    }
  }
}
